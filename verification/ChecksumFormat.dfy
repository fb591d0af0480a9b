/**
 The bytes behind the checksum, read by a decoder written from the format alone: literal
 headers and tags, lengths and numbers in little-endian order, digests in ascending order.
 */
module ChecksumFormat {
  import opened Machine
  import opened Semantic
  import opened Sorting
  import opened Text
  import opened Wrappers
  import opened Checksum

  // The format

  /** Eight bytes, least significant first. */
  function Number(b: Bytes): nat
    requires |b| == 8
  {
    b[0] as int + 0x100 * b[1] as int + 0x1_0000 * b[2] as int + 0x100_0000 * b[3] as int
    + 0x1_0000_0000 * b[4] as int + 0x100_0000_0000 * b[5] as int
    + 0x1_0000_0000_0000 * b[6] as int + 0x100_0000_0000_0000 * b[7] as int
  }

  lemma NumberBound(b: Bytes)
    requires |b| == 8
    ensures Number(b) < TWO64
  {
  }

  function Signed(n: nat): int {
    if n < TWO63 then n else n - TWO64
  }

  /** A cell and what follows it. */
  datatype Parsed<T> = Parsed(value: T, rest: Bytes)

  function DecodeCell(b: Bytes): Option<Parsed<Cell>> {
    if b == [] then None
    else if b[0] == 0 then Some(Parsed(Null, b[1..]))
    else if b[0] == 3 then
      if |b| < 2 || b[1] > 1 then None else Some(Parsed(Bool(b[1] == 1), b[2..]))
    else if |b| < 9 then None
    else
      var n, rest := Number(b[1..9]), b[9..];
      NumberBound(b[1..9]);
      if b[0] == 1 then Some(Parsed(Int64(Signed(n)), rest))
      else if b[0] == 2 then Some(Parsed(Float64(n), rest))
      else if |rest| < n then None
      else if b[0] == 4 then Some(Parsed(Value.Text(rest[..n]), rest[n..]))
      else if b[0] == 5 then Some(Parsed(Blob(rest[..n]), rest[n..]))
      else None
  }

  function DecodeCells(b: Bytes, n: nat): Option<Parsed<Row>> {
    if n == 0 then Some(Parsed([], b)) else
      var front := DecodeCells(b, n - 1);
      if front.None? then None else
        var last := DecodeCell(front.value.rest);
        if last.None? then None else Some(Parsed(front.value.value + [last.value.value], last.value.rest))
  }

  /** The text of `header` and a zero byte come first. */
  predicate Headed(b: Bytes, header: string) {
    |b| > |header| && b[|header|] == 0 && forall i | 0 <= i < |header| :: b[i] == header[i] as int
  }

  function DecodeRow(b: Bytes): Option<Row> {
    if |b| < 44 || !Headed(b, "decentdb-rust-baseline-query-row-v1") then None else
      var r := DecodeCells(b[44..], Number(b[36..44]));
      if r.None? || r.value.rest != [] then None else Some(r.value.value)
  }

  /** The digests of an evidence string, in the order in which they stand. */
  function DecodeEvidence(b: Bytes): Option<seq<Digest>> {
    if |b| < 49 || !Headed(b, "decentdb-rust-baseline-query-evidence-v2") then None else
      var n := Number(b[41..49]);
      if |b| != 49 + 32 * n then None
      else Some(DigestList(b, n))
  }

  function DigestList(b: Bytes, n: nat): seq<Digest>
    requires |b| == 49 + 32 * n
  {
    seq(n, i requires 0 <= i < n => DigestAt(b, n, i))
  }

  function DigestAt(b: Bytes, n: nat, i: nat): Digest
    requires i < n && |b| == 49 + 32 * n
  {
    b[49 + 32 * i..49 + 32 * i + 32]
  }

  /** `a` comes before `b`: at the first byte in which they differ it has the smaller one. */
  ghost predicate ComesBefore(a: Bytes, b: Bytes) {
    exists k: nat :: k < |a| && k < |b| && a[..k] == b[..k] && a[k] < b[k]
  }

  // Rows

  lemma NumberIsValue(b: Bytes)
    requires |b| == 8
    ensures Number(b) == LeValue(b)
  {
    hide LeValue;
    LeAt(b, 0);
    LeAt(b, 1);
    LeAt(b, 2);
    LeAt(b, 3);
    LeAt(b, 4);
    LeAt(b, 5);
    LeAt(b, 6);
    LeAt(b, 7);
    LeEnd(b);
  }

  lemma LeAt(b: Bytes, k: nat)
    requires k < |b|
    ensures LeValue(b[k..]) == b[k] + 0x100 * LeValue(b[k + 1..])
  {
    assert b[k..][1..] == b[k + 1..];
  }

  lemma LeEnd(b: Bytes)
    ensures LeValue(b[|b|..]) == 0 && b[0..] == b
  {
  }

  lemma NumberOf(n: u64)
    ensures Number(Le64(n)) == n
  {
    hide Number, LeValue, LittleEndian;
    NumberIsValue(Le64(n));
    Pow256Word();
    LittleEndianRoundTrip(n, 8);
  }

  lemma CellRoundTrip(c: Cell, rest: Bytes)
    requires StorableCell(c)
    ensures DecodeCell(EncodeCell(c) + rest) == Some(Parsed(c, rest))
  {
    hide Number, Le64, Wrap, TWO63, TWO64;
    var b := EncodeCell(c) + rest;
    match c
    case Null => assert b[1..] == rest;
    case Bool(_) => assert b[2..] == rest;
    case Int64(i) =>
      NumberOf(AsU64(i));
      assert b[1..9] == Le64(AsU64(i)) && b[9..] == rest;
      SignedIs(i);
    case Float64(bits) =>
      NumberOf(bits);
      assert b[1..9] == Le64(bits) && b[9..] == rest;
    case Text(t) => FramedRoundTrip(b, t, rest);
    case Blob(t) => FramedRoundTrip(b, t, rest);
  }

  lemma SignedIs(i: i64)
    ensures Signed(AsU64(i)) == i
  {
  }

  lemma FramedRoundTrip(b: Bytes, t: Bytes, rest: Bytes)
    requires |t| < TWO64 && b != [] && b[1..] == Framed(t) + rest
    ensures |b| >= 9 && Number(b[1..9]) == |t| <= |b[9..]| && b[9..][..|t|] == t && b[9..][|t|..] == rest
  {
    hide Number, Le64;
    NumberOf(|t|);
    WrapWord(|t|);
    assert b[1..] == Le64(|t|) + (t + rest);
    assert b[1..9] == b[1..][..8] && b[9..] == b[1..][8..];
  }

  lemma {:induction false} CellsRoundTrip(row: Row, rest: Bytes)
    requires forall i | 0 <= i < |row| :: StorableCell(row[i])
    ensures DecodeCells(EncodeCells(row) + rest, |row|) == Some(Parsed(row, rest))
  {
    hide StorableCell, EncodeCell, DecodeCell;
    if row == [] {
      assert EncodeCells(row) + rest == rest;
    } else {
      var k := |row| - 1;
      CellsRoundTrip(row[..k], EncodeCell(row[k]) + rest);
      assert EncodeCells(row) + rest == EncodeCells(row[..k]) + (EncodeCell(row[k]) + rest);
      CellRoundTrip(row[k], rest);
      assert row == row[..k] + [row[k]];
    }
  }

  lemma AsciiHeaded(header: string, rest: Bytes)
    requires forall i | 0 <= i < |header| :: header[i] < '\U{80}'
    ensures |Ascii(header)| == |header| && Headed(Ascii(header) + [0] + rest, header)
  {
  }

  lemma RowHeaded(rest: Bytes)
    ensures |RowHeader()| == 36 && Headed(RowHeader() + rest, "decentdb-rust-baseline-query-row-v1")
  {
    hide Ascii, Headed;
    AsciiHeaded("decentdb-rust-baseline-query-row-v1", rest);
  }

  lemma EvidenceHeaded(rest: Bytes)
    ensures |EvidenceHeader()| == 41 && Headed(EvidenceHeader() + rest, "decentdb-rust-baseline-query-evidence-v2")
  {
    hide Ascii, Headed;
    AsciiHeaded("decentdb-rust-baseline-query-evidence-v2", rest);
  }

  /** The string hashed for a row is the row in the format. */
  lemma RowRoundTrip(row: Row)
    requires StorableRow(row)
    ensures DecodeRow(EncodeRow(row)) == Some(row)
  {
    hide Number, Le64, Headed, RowHeader, EncodeCells, DecodeCells, StorableCell;
    var b, cells := EncodeRow(row), EncodeCells(row);
    WrapWord(|row|);
    RowHeaded(Le64(|row|) + cells);
    assert b == RowHeader() + (Le64(|row|) + cells);
    NumberOf(|row|);
    assert b[36..44] == Le64(|row|) && b[44..] == cells;
    CellsRoundTrip(row, []);
    assert cells + [] == cells;
  }

  // The evidence

  lemma {:induction false} ConcatAt(digests: seq<Digest>, i: nat)
    requires i < |digests|
    ensures Concat(digests)[32 * i..32 * i + 32] == digests[i]
  {
    var k := |digests| - 1;
    var front := Concat(digests[..k]);
    assert Concat(digests) == front + digests[k];
    if i == k {
      assert (front + digests[k])[32 * k..] == digests[k];
    } else {
      ConcatAt(digests[..k], i);
      assert (front + digests[k])[32 * i..32 * i + 32] == front[32 * i..32 * i + 32];
    }
  }

  lemma EvidenceDecoded(digests: seq<Digest>)
    requires |digests| < TWO64
    ensures DecodeEvidence(EvidenceHeader() + Le64(|digests|) + Concat(digests)) == Some(digests)
  {
    hide Number, Le64, Headed, EvidenceHeader, Concat, DigestList;
    EvidenceParts(|digests|, Concat(digests));
    ListIs(EvidenceHeader() + Le64(|digests|) + Concat(digests), digests);
  }

  lemma EvidenceParts(n: u64, all: Bytes)
    ensures
      var b := EvidenceHeader() + Le64(n) + all;
      && |b| == 49 + |all| && Headed(b, "decentdb-rust-baseline-query-evidence-v2")
      && Number(b[41..49]) == n && b[49..] == all
  {
    hide Number, Le64, Headed, EvidenceHeader;
    var b := EvidenceHeader() + Le64(n) + all;
    EvidenceHeaded(Le64(n) + all);
    assert b == EvidenceHeader() + (Le64(n) + all);
    NumberOf(n);
    assert b[41..49] == Le64(n);
  }

  lemma ListIs(b: Bytes, digests: seq<Digest>)
    requires |b| == 49 + 32 * |digests| && b[49..] == Concat(digests)
    ensures DigestList(b, |digests|) == digests
  {
    hide Concat, DigestAt;
    forall i | 0 <= i < |digests|
      ensures DigestAt(b, |digests|, i) == digests[i]
    {
      SliceIs(b, digests, i);
    }
  }

  lemma SliceIs(b: Bytes, digests: seq<Digest>, i: nat)
    requires i < |digests| && |b| == 49 + 32 * |digests| && b[49..] == Concat(digests)
    ensures DigestAt(b, |digests|, i) == digests[i]
  {
    hide Concat;
    ConcatAt(digests, i);
    SliceInside(b, Concat(digests), 32 * i);
  }

  lemma SliceInside(b: Bytes, all: Bytes, k: nat)
    requires |b| >= 49 && b[49..] == all && k + 32 <= |all|
    ensures b[49 + k..49 + k + 32] == all[k..k + 32]
  {
  }

  lemma {:induction false} LeqFirstDifference(a: Bytes, b: Bytes)
    requires |a| == |b| && Leq(a, b)
    ensures a == b || ComesBefore(a, b)
  {
    if a == [] {
    } else if a[0] < b[0] {
      assert a[..0] == b[..0];
      assert 0 < |a| && 0 < |b| && a[..0] == b[..0] && a[0] < b[0];
    } else {
      LeqFirstDifference(a[1..], b[1..]);
      assert a == [a[0]] + a[1..] && b == [b[0]] + b[1..];
      if ComesBefore(a[1..], b[1..]) {
        var k: nat :| k < |a[1..]| && k < |b[1..]| && a[1..][..k] == b[1..][..k] && a[1..][k] < b[1..][k];
        assert a[..k + 1] == [a[0]] + a[1..][..k] && b[..k + 1] == [b[0]] + b[1..][..k];
        assert a[k + 1] < b[k + 1];
      }
    }
  }

  /** The digests of the rows, by index. */
  function Digests(hash: Hash, rows: seq<Row>): seq<Digest> {
    seq(|rows|, i requires 0 <= i < |rows| => DigestOf(hash, rows[i]))
  }

  function DigestOf(hash: Hash, row: Row): Digest {
    hash(EncodeRow(row))
  }

  lemma {:induction false} DigestsAre(hash: Hash, rows: seq<Row>)
    ensures RowDigests(hash, rows) == Digests(hash, rows)
  {
    hide EncodeRow;
    if rows == [] {
    } else {
      DigestsAre(hash, rows[..|rows| - 1]);
    }
  }

  /** The evidence string lists the digests of the rows, all of them and in ascending order. */
  lemma EvidenceFormat(hash: Hash, rows: seq<Row>)
    requires |rows| < TWO64
    ensures
      var d := DecodeEvidence(Evidence(hash, rows));
      && d.Some? && |d.value| == |rows| && multiset(d.value) == multiset(Digests(hash, rows))
      && forall i, j | 0 <= i < j < |d.value| :: d.value[i] == d.value[j] || ComesBefore(d.value[i], d.value[j])
  {
    hide EvidenceHeader, Le64, Concat, RowDigests, Digests, Sort, TotalOrder, DecodeEvidence, Leq, ComesBefore;
    var digests := RowDigests(hash, rows);
    DigestsAre(hash, rows);
    DigestsOrdered();
    SortCorrect(digests, DigestLeq);
    WrapWord(|rows|);
    var sorted := Sorted(digests);
    EvidenceDecoded(sorted);
    forall i, j | 0 <= i < j < |sorted|
      ensures sorted[i] == sorted[j] || ComesBefore(sorted[i], sorted[j])
    {
      assert DigestLeq(sorted[i], sorted[j]);
      LeqFirstDifference(sorted[i], sorted[j]);
    }
  }

  // The checksum

  lemma {:induction false} HexAt(b: Bytes, i: nat)
    requires i < |b|
    ensures |Hex(b)| == 2 * |b|
    ensures Hex(b)[2 * i] == "0123456789abcdef"[b[i] / 16]
    ensures Hex(b)[2 * i + 1] == "0123456789abcdef"[b[i] % 16]
  {
    hide HexByte;
    var k := |b| - 1;
    HexLength(b);
    HexLength(b[..k]);
    assert Hex(b) == Hex(b[..k]) + HexByte(b[k]);
    if i == k {
      HexByteIs(b[k]);
    } else {
      HexAt(b[..k], i);
    }
  }

  lemma HexByteIs(n: byte)
    ensures HexByte(n) == ["0123456789abcdef"[n / 16], "0123456789abcdef"[n % 16]]
  {
    hide HexChar;
    HexCharIs(n / 16);
    HexCharIs(n % 16);
  }

  /** The checksum spells the hash of the evidence string in 64 lower-case hexadecimal digits. */
  lemma ChecksumText(hash: Hash, rows: seq<Row>, i: nat)
    requires i < 32
    ensures
      var text, digest := Checksum.Checksum(hash, rows), hash(Evidence(hash, rows));
      && |text| == 64
      && text[2 * i] == "0123456789abcdef"[digest[i] / 16] && text[2 * i + 1] == "0123456789abcdef"[digest[i] % 16]
  {
    hide Evidence, Hex;
    HexAt(hash(Evidence(hash, rows)), i);
  }
}
