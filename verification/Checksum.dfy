/**
 The order-insensitive checksum of query evidence. The hash is a parameter, so
 nothing here depends on SHA-256: two lists of rows with equal checksums are the
 same multiset of rows, or two of the strings that were hashed collide.
 */
module Checksum {
  import opened Machine
  import opened Semantic
  import opened Sorting
  import opened Text

  type Bytes = seq<byte>
  type Digest = d: Bytes | |d| == 32 witness seq(32, i => 0)
  type Hash = Bytes -> Digest

  /** Cells as they are hashed: doubles by their bits, text by its UTF-8 bytes. */
  type Cell = Value<u64, Bytes>
  type Row = seq<Cell>

  function Ascii(s: string): Bytes {
    seq(|s|, i requires 0 <= i < |s| => s[i] as int % 256)
  }

  /** `k` bytes of `n`, least significant first: `to_le_bytes`. */
  function LittleEndian(n: nat, k: nat): (b: Bytes)
    ensures |b| == k
  {
    if k == 0 then [] else [n % 256] + LittleEndian(n / 256, k - 1)
  }

  function Le64(n: u64): (b: Bytes)
    ensures |b| == 8
  {
    LittleEndian(n, 8)
  }

  /** A length-prefixed string: `update_bytes`. */
  function Framed(b: Bytes): Bytes {
    Le64(Wrap(|b|)) + b
  }

  /** The part of a cell's encoding after its tag. */
  function Payload(c: Cell): Bytes {
    match c
    case Null => []
    case Int64(i) => Le64(AsU64(i))
    case Float64(bits) => Le64(bits)
    case Bool(b) => [if b then 1 else 0]
    case Text(t) => Framed(t)
    case Blob(b) => Framed(b)
  }

  function Tag(c: Cell): byte {
    match c
    case Null => 0
    case Int64(_) => 1
    case Float64(_) => 2
    case Bool(_) => 3
    case Text(_) => 4
    case Blob(_) => 5
  }

  function EncodeCell(c: Cell): Bytes {
    [Tag(c)] + Payload(c)
  }

  function EncodeCells(row: Row): Bytes {
    if row == [] then [] else EncodeCells(row[..|row| - 1]) + EncodeCell(row[|row| - 1])
  }

  function RowHeader(): Bytes {
    Ascii("decentdb-rust-baseline-query-row-v1") + [0]
  }

  function EvidenceHeader(): Bytes {
    Ascii("decentdb-rust-baseline-query-evidence-v2") + [0]
  }

  function EncodeRow(row: Row): Bytes {
    RowHeader() + Le64(Wrap(|row|)) + EncodeCells(row)
  }

  function RowDigests(hash: Hash, rows: seq<Row>): (d: seq<Digest>)
    ensures |d| == |rows|
  {
    if rows == [] then [] else RowDigests(hash, rows[..|rows| - 1]) + [hash(EncodeRow(rows[|rows| - 1]))]
  }

  function Concat(digests: seq<Digest>): (b: Bytes)
    ensures |b| == 32 * |digests|
  {
    if digests == [] then [] else Concat(digests[..|digests| - 1]) + digests[|digests| - 1]
  }

  /** The string whose hash is the checksum. */
  function Evidence(hash: Hash, rows: seq<Row>): Bytes {
    EvidenceHeader() + Le64(Wrap(|rows|)) + Concat(Sorted(RowDigests(hash, rows)))
  }

  /** `{:02x}`. */
  function HexByte(n: byte): (s: string)
    ensures |s| == 2
  {
    [HexChar(n / 16), HexChar(n % 16)]
  }

  function Hex(b: Bytes): string {
    if b == [] then "" else Hex(b[..|b| - 1]) + HexByte(b[|b| - 1])
  }

  function Checksum(hash: Hash, rows: seq<Row>): string {
    Hex(hash(Evidence(hash, rows)))
  }

  // The order of digests

  predicate Leq(a: Bytes, b: Bytes) {
    a == [] || (b != [] && (a[0] < b[0] || (a[0] == b[0] && Leq(a[1..], b[1..]))))
  }

  lemma {:induction false} LeqTotal(a: Bytes, b: Bytes)
    ensures Leq(a, b) || Leq(b, a)
  {
    if a == [] || b == [] || a[0] != b[0] {
    } else {
      LeqTotal(a[1..], b[1..]);
    }
  }

  lemma {:induction false} LeqAntisymmetric(a: Bytes, b: Bytes)
    requires Leq(a, b) && Leq(b, a)
    ensures a == b
  {
    if a == [] {
    } else {
      LeqAntisymmetric(a[1..], b[1..]);
      assert a == [a[0]] + a[1..] && b == [b[0]] + b[1..];
    }
  }

  lemma {:induction false} LeqTransitive(a: Bytes, b: Bytes, c: Bytes)
    requires Leq(a, b) && Leq(b, c)
    ensures Leq(a, c)
  {
    if a != [] && a[0] == b[0] == c[0] {
      LeqTransitive(a[1..], b[1..], c[1..]);
    }
  }

  /** The order of the digests, byte by byte. */
  predicate DigestLeq(a: Digest, b: Digest) {
    Leq(a, b)
  }

  lemma DigestsOrdered()
    ensures TotalOrder(DigestLeq)
  {
    hide Leq;
    forall a: Digest, b: Digest
      ensures DigestLeq(a, b) || DigestLeq(b, a)
      ensures DigestLeq(a, b) && DigestLeq(b, a) ==> a == b
    {
      LeqTotal(a, b);
      if Leq(a, b) && Leq(b, a) {
        LeqAntisymmetric(a, b);
      }
    }
    forall a: Digest, b: Digest, c: Digest | DigestLeq(a, b) && DigestLeq(b, c)
      ensures DigestLeq(a, c)
    {
      LeqTransitive(a, b, c);
    }
  }

  /** `sort_unstable`. */
  function Sorted(s: seq<Digest>): seq<Digest> {
    Sort(s, DigestLeq)
  }

  // The encoding loses nothing

  /** Rust lengths fit in 64 bits. */
  predicate StorableCell(c: Cell) {
    && (c.Text? ==> |c.t| < TWO64)
    && (c.Blob? ==> |c.bytes| < TWO64)
  }

  predicate StorableRow(row: Row) {
    |row| < TWO64 && forall i | 0 <= i < |row| :: StorableCell(row[i])
  }

  predicate Storable(rows: seq<Row>) {
    |rows| < TWO64 && forall i | 0 <= i < |rows| :: StorableRow(rows[i])
  }

  function LeValue(b: Bytes): nat {
    if b == [] then 0 else b[0] + 256 * LeValue(b[1..])
  }

  function Pow256(k: nat): nat {
    if k == 0 then 1 else 256 * Pow256(k - 1)
  }

  lemma {:induction false} LittleEndianRoundTrip(n: nat, k: nat)
    requires n < Pow256(k)
    ensures LeValue(LittleEndian(n, k)) == n
  {
    if k == 0 {
    } else {
      LittleEndianRoundTrip(n / 256, k - 1);
      assert LittleEndian(n, k)[1..] == LittleEndian(n / 256, k - 1);
    }
  }

  lemma Pow256Word()
    ensures Pow256(8) == TWO64
  {
    assert Pow256(4) == 0x1_0000_0000;
    assert Pow256(8) == 256 * 256 * 256 * 256 * Pow256(4);
  }

  lemma Le64Injective(m: u64, n: u64)
    requires Le64(m) == Le64(n)
    ensures m == n
  {
    Pow256Word();
    LittleEndianRoundTrip(m, 8);
    LittleEndianRoundTrip(n, 8);
  }

  lemma SplitEqual<T>(a: seq<T>, x: seq<T>, b: seq<T>, y: seq<T>)
    requires |a| == |b| && a + x == b + y
    ensures a == b && x == y
  {
    assert a == (a + x)[..|a|] && b == (b + y)[..|b|];
    assert x == (a + x)[|a|..] && y == (b + y)[|b|..];
  }

  lemma FramedPrefixFree(a: Bytes, x: Bytes, b: Bytes, y: Bytes)
    requires |a| < TWO64 && |b| < TWO64 && Framed(a) + x == Framed(b) + y
    ensures a == b && x == y
  {
    hide Le64;
    WrapWord(|a|);
    WrapWord(|b|);
    assert Framed(a) + x == Le64(|a|) + (a + x) && Framed(b) + y == Le64(|b|) + (b + y);
    SplitEqual(Le64(|a|), a + x, Le64(|b|), b + y);
    Le64Injective(|a|, |b|);
    SplitEqual(a, x, b, y);
  }

  lemma PayloadPrefixFree(a: Cell, x: Bytes, b: Cell, y: Bytes)
    requires StorableCell(a) && StorableCell(b) && Tag(a) == Tag(b) && Payload(a) + x == Payload(b) + y
    ensures a == b && x == y
  {
    hide Le64, Framed;
    match a
    case Null => assert [] + x == x && [] + y == y;
    case Int64(i) =>
      SplitEqual(Payload(a), x, Payload(b), y);
      Le64Injective(AsU64(i), AsU64(b.i));
    case Float64(bits) =>
      SplitEqual(Payload(a), x, Payload(b), y);
      Le64Injective(bits, b.f);
    case Bool(_) => SplitEqual(Payload(a), x, Payload(b), y);
    case Text(t) => FramedPrefixFree(t, x, b.t, y);
    case Blob(bytes) => FramedPrefixFree(bytes, x, b.bytes, y);
  }

  /** No encoding of a cell is a proper prefix of another, and equal encodings are of equal cells. */
  lemma CellPrefixFree(a: Cell, x: Bytes, b: Cell, y: Bytes)
    requires StorableCell(a) && StorableCell(b) && EncodeCell(a) + x == EncodeCell(b) + y
    ensures a == b && x == y
  {
    hide Payload, Tag;
    assert EncodeCell(a) + x == [Tag(a)] + (Payload(a) + x);
    assert EncodeCell(b) + y == [Tag(b)] + (Payload(b) + y);
    SplitEqual([Tag(a)], Payload(a) + x, [Tag(b)], Payload(b) + y);
    assert [Tag(a)][0] == [Tag(b)][0];
    PayloadPrefixFree(a, x, b, y);
  }

  lemma {:induction false} CellsPrefixFree(a: Row, x: Bytes, b: Row, y: Bytes)
    requires |a| == |b| && StorableRow(a) && StorableRow(b) && EncodeCells(a) + x == EncodeCells(b) + y
    ensures a == b && x == y
  {
    hide EncodeCell;
    if a == [] {
      assert [] + x == x && [] + y == y;
    } else {
      var k := |a| - 1;
      assert EncodeCells(a) + x == EncodeCells(a[..k]) + (EncodeCell(a[k]) + x);
      assert EncodeCells(b) + y == EncodeCells(b[..k]) + (EncodeCell(b[k]) + y);
      CellsPrefixFree(a[..k], EncodeCell(a[k]) + x, b[..k], EncodeCell(b[k]) + y);
      CellPrefixFree(a[k], x, b[k], y);
      assert a == a[..k] + [a[k]] && b == b[..k] + [b[k]];
    }
  }

  lemma HeaderedEqual(h: Bytes, m: u64, x: Bytes, n: u64, y: Bytes)
    requires h + Le64(m) + x == h + Le64(n) + y
    ensures m == n && x == y
  {
    hide Le64;
    SplitEqual(h + Le64(m), x, h + Le64(n), y);
    SplitEqual(h, Le64(m), h, Le64(n));
    Le64Injective(m, n);
  }

  /** The string hashed for a row determines the row. */
  lemma EncodeRowInjective(a: Row, b: Row)
    requires StorableRow(a) && StorableRow(b) && EncodeRow(a) == EncodeRow(b)
    ensures a == b
  {
    hide RowHeader, Le64, EncodeCells;
    WrapWord(|a|);
    WrapWord(|b|);
    HeaderedEqual(RowHeader(), |a|, EncodeCells(a), |b|, EncodeCells(b));
    assert EncodeCells(a) + [] == EncodeCells(a) && EncodeCells(b) + [] == EncodeCells(b);
    CellsPrefixFree(a, [], b, []);
  }

  lemma {:induction false} ConcatInjective(s: seq<Digest>, t: seq<Digest>)
    requires |s| == |t| && Concat(s) == Concat(t)
    ensures s == t
  {
    if s == [] {
    } else {
      var k := |s| - 1;
      SplitEqual(Concat(s[..k]), s[k], Concat(t[..k]), t[k]);
      ConcatInjective(s[..k], t[..k]);
      assert s == s[..k] + [s[k]] && t == t[..k] + [t[k]];
    }
  }

  lemma {:induction false} HexInjective(a: Bytes, b: Bytes)
    requires |a| == |b| && Hex(a) == Hex(b)
    ensures a == b
  {
    hide Hex, HexByte;
    if a == [] {
    } else {
      var k := |a| - 1;
      HexSnoc(a);
      HexSnoc(b);
      HexLength(a[..k]);
      HexLength(b[..k]);
      SplitEqual(Hex(a[..k]), HexByte(a[k]), Hex(b[..k]), HexByte(b[k]));
      HexInjective(a[..k], b[..k]);
      HexPair(a[k], b[k]);
      assert a == a[..k] + [a[k]] && b == b[..k] + [b[k]];
    }
  }

  lemma HexSnoc(b: Bytes)
    requires b != []
    ensures Hex(b) == Hex(b[..|b| - 1]) + HexByte(b[|b| - 1])
  {
  }

  lemma HexPair(a: byte, b: byte)
    requires HexByte(a) == HexByte(b)
    ensures a == b
  {
    assert HexByte(a)[0] == HexByte(b)[0] && HexByte(a)[1] == HexByte(b)[1];
  }

  lemma {:induction false} HexLength(b: Bytes)
    ensures |Hex(b)| == 2 * |b|
  {
    hide HexByte;
    if b == [] {
    } else {
      HexLength(b[..|b| - 1]);
    }
  }

  // The checksum decides equality of multisets of rows

  lemma {:induction false} RowDigestsConcat(hash: Hash, a: seq<Row>, b: seq<Row>)
    ensures RowDigests(hash, a + b) == RowDigests(hash, a) + RowDigests(hash, b)
  {
    hide EncodeRow;
    if b == [] {
      assert a + b == a;
    } else {
      var k := |b| - 1;
      assert (a + b)[..|a + b| - 1] == a + b[..k];
      RowDigestsConcat(hash, a, b[..k]);
    }
  }

  /** Reordering the rows reorders their digests. */
  lemma {:induction false} RowDigestsPermuted(hash: Hash, a: seq<Row>, b: seq<Row>)
    requires multiset(a) == multiset(b)
    ensures multiset(RowDigests(hash, a)) == multiset(RowDigests(hash, b))
    decreases |a|
  {
    hide EncodeRow, RowDigests;
    if a == [] {
      assert |multiset(b)| == 0;
    } else {
      assert a[0] in multiset(b);
      var i :| 0 <= i < |b| && b[i] == a[0];
      RemoveRow(hash, a, 0);
      RemoveRow(hash, b, i);
      var restA, restB := a[..0] + a[1..], b[..i] + b[i + 1..];
      assert multiset(restA) == multiset(a) - multiset{a[0]};
      assert multiset(restB) == multiset(b) - multiset{a[0]};
      RowDigestsPermuted(hash, restA, restB);
    }
  }

  lemma RemoveRow(hash: Hash, rows: seq<Row>, i: nat)
    requires i < |rows|
    ensures
      var rest := rows[..i] + rows[i + 1..];
      && multiset(rows) == multiset(rest) + multiset{rows[i]}
      && multiset(RowDigests(hash, rows)) == multiset(RowDigests(hash, rest)) + multiset{hash(EncodeRow(rows[i]))}
  {
    hide EncodeRow;
    var before, after := rows[..i], rows[i + 1..];
    assert rows == before + [rows[i]] + after;
    RowDigestsConcat(hash, before, after);
    RowDigestsConcat(hash, before + [rows[i]], after);
    RowDigestsConcat(hash, before, [rows[i]]);
    assert RowDigests(hash, [rows[i]]) == [hash(EncodeRow(rows[i]))] by {
      assert [rows[i]][..0] == [];
    }
  }

  /** Every string that goes into the hash when two lists of rows are checksummed. */
  ghost function HashedStrings(hash: Hash, a: seq<Row>, b: seq<Row>): set<Bytes> {
    (set r | r in a + b :: EncodeRow(r)) + {Evidence(hash, a), Evidence(hash, b)}
  }

  ghost predicate Collides(hash: Hash, strings: set<Bytes>) {
    exists x, y :: x in strings && y in strings && x != y && hash(x) == hash(y)
  }

  ghost predicate DistinctDigests(hash: Hash, rows: seq<Row>) {
    forall r, s | r in rows && s in rows && hash(EncodeRow(r)) == hash(EncodeRow(s)) :: r == s
  }

  lemma {:induction false} DigestMultiplicity(hash: Hash, all: seq<Row>, rows: seq<Row>, r: Row)
    requires DistinctDigests(hash, all) && r in all
    requires forall i | 0 <= i < |rows| :: rows[i] in all
    ensures multiset(RowDigests(hash, rows))[hash(EncodeRow(r))] == multiset(rows)[r]
  {
    hide EncodeRow, RowDigests;
    if rows == [] {
      assert RowDigests(hash, rows) == [];
    } else {
      var k := |rows| - 1;
      DigestMultiplicity(hash, all, rows[..k], r);
      LastDigest(hash, rows);
      LastMultiplicity(RowDigests(hash, rows), hash(EncodeRow(r)));
      LastMultiplicity(rows, r);
      assert rows[k] in all;
    }
  }

  lemma LastDigest(hash: Hash, rows: seq<Row>)
    requires rows != []
    ensures
      var k := |rows| - 1;
      && RowDigests(hash, rows)[..k] == RowDigests(hash, rows[..k])
      && RowDigests(hash, rows)[k] == hash(EncodeRow(rows[k]))
  {
    hide EncodeRow;
  }

  lemma LastMultiplicity<T>(s: seq<T>, x: T)
    requires s != []
    ensures
      var k := |s| - 1;
      multiset(s)[x] == multiset(s[..k])[x] + if s[k] == x then 1 else 0
  {
    assert s == s[..|s| - 1] + [s[|s| - 1]];
  }

  lemma DigestsDecide(hash: Hash, a: seq<Row>, b: seq<Row>)
    requires DistinctDigests(hash, a + b)
    requires multiset(RowDigests(hash, a)) == multiset(RowDigests(hash, b))
    ensures multiset(a) == multiset(b)
  {
    hide EncodeRow, RowDigests;
    forall r: Row
      ensures multiset(a)[r] == multiset(b)[r]
    {
      if r in a + b {
        DigestMultiplicity(hash, a + b, a, r);
        DigestMultiplicity(hash, a + b, b, r);
      }
    }
  }

  lemma RowsDistinct(hash: Hash, rows: seq<Row>, strings: set<Bytes>)
    requires forall r | r in rows :: StorableRow(r) && EncodeRow(r) in strings
    requires !Collides(hash, strings)
    ensures DistinctDigests(hash, rows)
  {
    hide EncodeRow, StorableRow;
    forall r, s | r in rows && s in rows && hash(EncodeRow(r)) == hash(EncodeRow(s))
      ensures r == s
    {
      EncodeRowInjective(r, s);
    }
  }

  lemma EvidenceDecides(hash: Hash, a: seq<Row>, b: seq<Row>)
    requires |a| < TWO64 && |b| < TWO64
    ensures Evidence(hash, a) == Evidence(hash, b)
            <==> |a| == |b| && multiset(RowDigests(hash, a)) == multiset(RowDigests(hash, b))
  {
    hide EvidenceHeader, Le64, Concat, Sort, RowDigests, Ordered, TotalOrder;
    WrapWord(|a|);
    WrapWord(|b|);
    var da, db := RowDigests(hash, a), RowDigests(hash, b);
    DigestsOrdered();
    SortDecides(da, db, DigestLeq);
    if Evidence(hash, a) == Evidence(hash, b) {
      HeaderedEqual(EvidenceHeader(), |a|, Concat(Sorted(da)), |b|, Concat(Sorted(db)));
      SortCorrect(da, DigestLeq);
      SortCorrect(db, DigestLeq);
      ConcatInjective(Sorted(da), Sorted(db));
    }
  }

  /** Equal multisets of rows have equal checksums, whatever the hash. */
  lemma ChecksumPermuted(hash: Hash, a: seq<Row>, b: seq<Row>)
    requires |a| < TWO64 && multiset(a) == multiset(b)
    ensures Checksum(hash, a) == Checksum(hash, b)
  {
    hide Evidence, Hex;
    assert |multiset(a)| == |a| && |multiset(b)| == |b|;
    RowDigestsPermuted(hash, a, b);
    EvidenceDecides(hash, a, b);
  }

  /** Equal checksums mean equal multisets of rows, or a collision among the hashed strings. */
  lemma ChecksumDecides(hash: Hash, a: seq<Row>, b: seq<Row>)
    requires Storable(a) && Storable(b)
    ensures Checksum(hash, a) == Checksum(hash, b)
            ==> multiset(a) == multiset(b) || Collides(hash, HashedStrings(hash, a, b))
  {
    hide Evidence, Hex, EncodeRow, StorableRow, Collides;
    var strings := HashedStrings(hash, a, b);
    if Checksum(hash, a) == Checksum(hash, b) && !Collides(hash, strings) {
      HexInjective(hash(Evidence(hash, a)), hash(Evidence(hash, b)));
      SameString(hash, strings, Evidence(hash, a), Evidence(hash, b));
      EvidenceDecides(hash, a, b);
      RowsDistinct(hash, a + b, strings);
      DigestsDecide(hash, a, b);
    }
  }

  lemma SameString(hash: Hash, strings: set<Bytes>, x: Bytes, y: Bytes)
    requires !Collides(hash, strings) && x in strings && y in strings && hash(x) == hash(y)
    ensures x == y
  {
  }

  // The loops

  /** `semantic_checksum`: digests are collected row by row, sorted, and hashed together. */
  method SemanticChecksum(hash: Hash, rows: seq<Row>) returns (r: string)
    ensures r == Checksum(hash, rows)
  {
    hide EncodeCell, RowHeader, EvidenceHeader, Hex, Sort, Le64;
    var digests: seq<Digest> := [];
    for i := 0 to |rows|
      invariant digests == RowDigests(hash, rows[..i])
    {
      var row := rows[i];
      var buffer := RowHeader() + Le64(Wrap(|row|));
      for j := 0 to |row|
        invariant buffer == RowHeader() + Le64(Wrap(|row|)) + EncodeCells(row[..j])
      {
        buffer := buffer + EncodeCell(row[j]);
        assert row[..j + 1][..j] == row[..j];
      }
      assert row[..|row|] == row;
      digests := digests + [hash(buffer)];
      assert rows[..i + 1][..i] == rows[..i];
    }
    assert rows[..|rows|] == rows;
    var sorted := Sorted(digests);
    var buffer := EvidenceHeader() + Le64(Wrap(|digests|));
    for i := 0 to |sorted|
      invariant buffer == EvidenceHeader() + Le64(Wrap(|rows|)) + Concat(sorted[..i])
    {
      buffer := buffer + sorted[i];
      assert sorted[..i + 1][..i] == sorted[..i];
    }
    assert sorted[..|sorted|] == sorted;
    r := Hex(hash(buffer));
  }
}
