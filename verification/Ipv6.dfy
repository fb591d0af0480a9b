/**
 IPv6 text: `format_ipv6` of the JNI bridge, which compresses one run of zero
 words, against the text forms of section 2.2 of RFC 4291.
 */
module Ipv6 {
  import opened Machine
  import opened Text
  import opened Wrappers

  type word = n: int | 0 <= n < 0x10000
  type Address = ws: seq<word> | |ws| == 8 witness seq(8, i => 0)

  /** The eight big-endian words of the sixteen address bytes. */
  function Words(addr: seq<byte>): Address
    requires |addr| == 16
  {
    seq(8, i requires 0 <= i < 8 => addr[2 * i] as int * 256 + addr[2 * i + 1])
  }

  /** The number a big-endian byte string denotes, and the number big-endian words denote. */
  function ByteNumber(b: seq<byte>): nat {
    if b == [] then 0 else 0x100 * ByteNumber(b[..|b| - 1]) + b[|b| - 1]
  }

  function WordNumber(ws: seq<word>): nat {
    if ws == [] then 0 else 0x10000 * WordNumber(ws[..|ws| - 1]) + ws[|ws| - 1]
  }

  /** The words denote the 128-bit number that the bytes denote in network order. */
  lemma WordsNumber(addr: seq<byte>)
    requires |addr| == 16
    ensures WordNumber(Words(addr)) == ByteNumber(addr)
  {
    WordsPrefix(addr, 8);
    assert Words(addr)[..8] == Words(addr) && addr[..16] == addr;
  }

  lemma {:induction false} WordsPrefix(addr: seq<byte>, k: nat)
    requires |addr| == 16 && k <= 8
    ensures WordNumber(Words(addr)[..k]) == ByteNumber(addr[..2 * k])
  {
    if k == 0 {
    } else {
      WordsPrefix(addr, k - 1);
      var ws, b := Words(addr)[..k], addr[..2 * k];
      assert ws[..k - 1] == Words(addr)[..k - 1];
      assert b[..2 * k - 1][..2 * k - 2] == addr[..2 * (k - 1)];
      assert ByteNumber(b[..2 * k - 1]) == 0x100 * ByteNumber(addr[..2 * (k - 1)]) + addr[2 * k - 2];
    }
  }

  // The run to compress

  ghost predicate ZeroRun(ws: Address, start: int, len: int) {
    0 <= start && 0 <= len && start + len <= 8 && forall i | start <= i < start + len :: ws[i] == 0
  }

  /** The leftmost longest run of at least two zero words, or none: section 4.2 of RFC 5952. */
  ghost predicate BestRun(ws: Address, start: int, len: int) {
    if start == -1 then
      len == 0 && forall i, n | ZeroRun(ws, i, n) :: n < 2
    else
      && len >= 2 && ZeroRun(ws, start, len)
      && (forall i, n | ZeroRun(ws, i, n) :: n <= len)
      && (forall i | ZeroRun(ws, i, len) :: start <= i)
  }

  lemma BestRunUnique(ws: Address, s: int, n: int, s': int, n': int)
    requires BestRun(ws, s, n) && BestRun(ws, s', n')
    ensures s == s' && n == n'
  {
    if s != -1 {
      assert ZeroRun(ws, s, n);
    }
    if s' != -1 {
      assert ZeroRun(ws, s', n');
    }
  }

  /** The first loop of `format_ipv6`. */
  method FindRun(ws: Address) returns (bestStart: int, bestLen: int)
    ensures BestRun(ws, bestStart, bestLen)
  {
    bestStart, bestLen := -1, 0;
    var i := 0;
    while i < 8
      invariant 0 <= i <= 8
      invariant i == 0 || i == 8 || ws[i - 1] != 0 || ws[i] != 0
      invariant bestStart == -1 ==> bestLen == 0
      invariant bestStart != -1 ==> bestLen >= 2 && ZeroRun(ws, bestStart, bestLen) && bestStart + bestLen <= i
      invariant forall s, n | ZeroRun(ws, s, n) && s < i && n >= 2 :: n <= bestLen && s + n <= i
      invariant forall s | ZeroRun(ws, s, bestLen) && s < i && bestStart != -1 :: bestStart <= s
    {
      if ws[i] == 0 {
        var j := i;
        while j < 8 && ws[j] == 0
          invariant i <= j <= 8
          invariant forall k | i <= k < j :: ws[k] == 0
        {
          j := j + 1;
        }
        var len := j - i;
        if len > bestLen && len >= 2 {
          bestStart, bestLen := i, len;
        }
        i := j;
      } else {
        i := i + 1;
      }
    }
  }

  // The text

  /** Words in hexadecimal, separated by colons. */
  function Join(ws: seq<word>): string {
    if ws == [] then ""
    else if |ws| == 1 then HexText(ws[0])
    else Join(ws[..|ws| - 1]) + ":" + HexText(ws[|ws| - 1])
  }

  /** What precedes the words after the run: a run at word 0 is written as a single colon. */
  function Lead(ws: Address, start: int): string
    requires 0 <= start <= 8
  {
    if start == 0 then ":" else Join(ws[..start]) + "::"
  }

  function Rendered(ws: Address, start: int, len: int): string
    requires start == -1 || (0 <= start && 0 <= len && start + len <= 8)
  {
    if start == -1 then Join(ws) else Lead(ws, start) + Join(ws[start + len..])
  }

  /** The part of the text written when the second loop stands at word `i`. */
  function Written(ws: Address, start: int, len: int, i: int): string
    requires 0 <= i <= 8
    requires start == -1 || (0 <= start && 0 <= len && start + len <= 8)
    requires start == -1 || i <= start || start + len <= i
  {
    if start == -1 || i <= start then Join(ws[..i]) else Lead(ws, start) + Join(ws[start + len..i])
  }

  lemma JoinSnoc(ws: seq<word>, w: word)
    ensures Join(ws + [w]) == (if ws == [] then "" else Join(ws) + ":") + HexText(w)
  {
    hide HexText;
    assert (ws + [w])[..|ws|] == ws;
  }

  lemma WrittenStep(ws: Address, start: int, len: int, i: int)
    requires start == -1 || (0 <= start && 2 <= len && start + len <= 8)
    requires 0 <= i < 8 && i != start && (start == -1 || i <= start || start + len <= i)
    ensures Written(ws, start, len, i + 1) ==
            Written(ws, start, len, i)
            + (if i == 0 || (start != -1 && i == start + len) then "" else ":") + HexText(ws[i])
  {
    hide HexText, Lead, Join;
    if start == -1 || i <= start {
      assert ws[..i + 1] == ws[..i] + [ws[i]];
      JoinSnoc(ws[..i], ws[i]);
      JoinEmpty(ws[..i]);
    } else {
      assert ws[start + len..i + 1] == ws[start + len..i] + [ws[i]];
      JoinSnoc(ws[start + len..i], ws[i]);
      JoinEmpty(ws[start + len..i]);
    }
  }

  lemma JoinEmpty(ws: seq<word>)
    ensures ws == [] ==> Join(ws) == ""
  {
  }

  lemma WrittenRun(ws: Address, start: int, len: int)
    requires 0 <= start && 2 <= len && start + len <= 8
    ensures Written(ws, start, len, start + len)
            == Written(ws, start, len, start) + (if start == 0 then "" else ":") + ":"
  {
    hide HexText, Join;
    JoinEmpty(ws[..0]);
    JoinEmpty(ws[start + len..start + len]);
  }

  /**
   `format_ipv6`: the text and a terminating NUL go to `out`, or -1 is returned when
   they do not fit.
   */
  method FormatIpv6(addr: seq<byte>, out: array<char>) returns (rc: int)
    requires |addr| == 16
    modifies out
    ensures rc == 0 || rc == -1
    ensures out.Length >= 40 ==> rc == 0
    ensures exists start, len ::
              && BestRun(Words(addr), start, len)
              && var text := Rendered(Words(addr), start, len);
              && (rc == 0 <==> |text| < out.Length)
              && (rc == 0 ==> out[..|text|] == text && out[|text|] == '\0')
  {
    hide Rendered, BestRun;
    var ws := Words(addr);
    var start, len := FindRun(ws);
    RunInside(ws, start, len);
    RenderedLength(ws, start, len);
    rc := WriteWords(ws, start, len, out);
  }

  /** The second loop of `format_ipv6` and the terminator. */
  method WriteWords(ws: Address, start: int, len: int, out: array<char>) returns (rc: int)
    requires start == -1 || (0 <= start && 2 <= len && start + len <= 8)
    modifies out
    ensures rc == 0 || rc == -1
    ensures
      var text := Rendered(ws, start, len);
      && (rc == 0 <==> |text| < out.Length)
      && (rc == 0 ==> out[..|text|] == text && out[|text|] == '\0')
  {
    hide HexText, Rendered, Written;
    WrittenEnds(ws, start, len);
    var pos, needSep, i := 0, false, 0;
    while i < 8
      invariant 0 <= i <= 8 && (start == -1 || i <= start || start + len <= i)
      invariant pos == |Written(ws, start, len, i)| && pos <= out.Length && (pos == 0 || pos < out.Length)
      invariant out[..pos] == Written(ws, start, len, i)
      invariant needSep <==> i > 0 && !(start != -1 && i == start + len)
    {
      var ok;
      if i == start {
        WrittenRun(ws, start, len);
        WrittenPrefix(ws, start, len, i + len);
        ok, pos := AppendSeparated(out, pos, needSep, ":");
        needSep := false;
        i := i + len;
      } else {
        WrittenStep(ws, start, len, i);
        WrittenPrefix(ws, start, len, i + 1);
        ok, pos := AppendSeparated(out, pos, needSep, HexText(ws[i]));
        needSep := true;
        i := i + 1;
      }
      if !ok {
        return -1;
      }
    }
    if pos >= out.Length {
      return -1;
    }
    out[pos] := '\0';
    rc := 0;
  }

  lemma WrittenEnds(ws: Address, start: int, len: int)
    requires start == -1 || (0 <= start && 2 <= len && start + len <= 8)
    ensures Written(ws, start, len, 0) == "" && Written(ws, start, len, 8) == Rendered(ws, start, len)
  {
    hide HexText;
    assert ws[..8] == ws && ws[..0] == [];
    if start != -1 {
      assert ws[start + len..8] == ws[start + len..];
    }
  }

  /** A separating colon if one is due, then `piece`, as long as they and a later NUL fit. */
  method AppendSeparated(out: array<char>, pos: nat, needSep: bool, piece: string) returns (ok: bool, end: nat)
    requires pos <= out.Length && piece != ""
    modifies out
    ensures
      var text := (if needSep then ":" else "") + piece;
      && (ok <==> pos + |text| < out.Length)
      && (ok ==> end == pos + |text| && out[..end] == old(out[..pos]) + text)
  {
    end := pos;
    if needSep {
      ok := Append(out, end, ":");
      if !ok {
        return;
      }
      end := end + 1;
    }
    ok := Append(out, end, piece);
    if !ok {
      return;
    }
    end := end + |piece|;
  }

  /** Writes a non-empty piece at `pos` if it and a later NUL fit. */
  method Append(out: array<char>, pos: nat, piece: string) returns (ok: bool)
    requires pos <= out.Length && piece != ""
    modifies out
    ensures ok <==> pos + |piece| < out.Length
    ensures ok ==> out[..pos + |piece|] == old(out[..pos]) + piece
  {
    ok := pos + |piece| < out.Length;
    if ok {
      forall k | 0 <= k < |piece| {
        out[pos + k] := piece[k];
      }
    }
  }

  /** The text written so far only grows. */
  lemma WrittenPrefix(ws: Address, start: int, len: int, i: int)
    requires start == -1 || (0 <= start && 2 <= len && start + len <= 8)
    requires 0 <= i <= 8 && (start == -1 || i <= start || start + len <= i)
    ensures |Written(ws, start, len, i)| <= |Rendered(ws, start, len)|
    decreases 8 - i
  {
    hide HexText, Join, Lead;
    if i == 8 {
      assert ws[..8] == ws && (start != -1 ==> ws[start + len..8] == ws[start + len..]);
    } else if i == start {
      WrittenRun(ws, start, len);
      WrittenPrefix(ws, start, len, start + len);
    } else {
      WrittenStep(ws, start, len, i);
      WrittenPrefix(ws, start, len, i + 1);
    }
  }

  // Length

  lemma {:induction false} JoinLength(ws: seq<word>)
    ensures ws != [] ==> |Join(ws)| <= 5 * |ws| - 1
    ensures ws == [] ==> Join(ws) == ""
  {
    hide HexText;
    if |ws| == 1 {
      HexTextLength(ws[0]);
    } else if |ws| > 1 {
      HexTextLength(ws[|ws| - 1]);
      JoinLength(ws[..|ws| - 1]);
    }
  }

  /** Forty bytes, the terminator included, hold every address. */
  lemma RenderedLength(ws: Address, start: int, len: int)
    requires BestRun(ws, start, len)
    ensures |Rendered(ws, start, len)| <= 39
  {
    hide Join;
    JoinLength(ws);
    if start != -1 {
      JoinLength(ws[..start]);
      JoinLength(ws[start + len..]);
    }
  }

  // Reading an address back

  /** The fields of a text between its colons. */
  function Fields(text: string): (f: seq<string>)
    ensures f != []
  {
    if text == "" then [""] else
      var f, c := Fields(text[..|text| - 1]), text[|text| - 1];
      if c == ':' then f + [""] else f[..|f| - 1] + [f[|f| - 1] + [c]]
  }

  /** A group: one to four hexadecimal digits. */
  predicate IsGroup(s: string) {
    1 <= |s| <= 4 && forall i | 0 <= i < |s| :: IsHex(s[i])
  }

  lemma {:induction false} HexNumeralBound(s: string)
    requires |s| <= 4
    ensures HexNumeral(s) < (if |s| == 0 then 1 else if |s| == 1 then 0x10 else if |s| == 2 then 0x100
                             else if |s| == 3 then 0x1000 else 0x10000)
  {
    if s == [] {
    } else {
      HexNumeralBound(s[..|s| - 1]);
    }
  }

  function Groups(fields: seq<string>): (r: Option<seq<word>>)
    ensures r.Some? ==> |r.value| == |fields|
  {
    if fields == [] then Some([]) else
      var front, last := Groups(fields[..|fields| - 1]), fields[|fields| - 1];
      if front.None? || !IsGroup(last) then None
      else HexNumeralBound(last); Some(front.value + [HexNumeral(last)])
  }

  /** The groups on one side of "::", where nothing at all is allowed too. */
  function Side(fields: seq<string>): Option<seq<word>> {
    if fields == [""] then Some([]) else Groups(fields)
  }

  /** The first empty field between two colons, which is a "::"; the number of fields if there is none. */
  function Gap(fields: seq<string>): nat {
    GapFrom(fields, 1)
  }

  function GapFrom(fields: seq<string>, i: nat): (k: nat)
    requires i >= 1
    ensures k >= 1
    decreases |fields| - i
  {
    if i + 1 >= |fields| then |fields| + 1 else if fields[i] == "" then i else GapFrom(fields, i + 1)
  }

  /** Fills the words a compression leaves out. */
  function Fill(left: seq<word>, right: seq<word>): Option<Address> {
    if |left| + |right| > 7 then None else Some(left + seq(8 - |left| - |right|, i => 0) + right)
  }

  /**
   The address a text denotes: eight groups, or groups around one "::". With `leading`, a
   single colon before the groups is read as a compression too, which RFC 4291 does not allow.
   */
  function Expand(text: string, leading: bool): Option<Address> {
    var f := Fields(text);
    var k := Gap(f);
    if k < |f| then
      var left, right := Side(f[..k]), Side(f[k + 1..]);
      if left.None? || right.None? then None else Fill(left.value, right.value)
    else if leading && f[0] == "" then
      var right := Side(f[1..]);
      if right.None? then None else Fill([], right.value)
    else
      var all := Groups(f);
      if all.None? || |all.value| != 8 then None else Some(all.value)
  }

  // Fields of a joined list

  function Texts(ws: seq<word>): seq<string> {
    seq(|ws|, i requires 0 <= i < |ws| => HexText(ws[i]))
  }

  lemma {:induction false} FieldsPlain(text: string, front: seq<string>, last: string, plain: string)
    requires Fields(text) == front + [last]
    requires forall i | 0 <= i < |plain| :: plain[i] != ':'
    ensures Fields(text + plain) == front + [last + plain]
  {
    hide Fields;
    if plain == "" {
      assert text + plain == text && last + plain == last;
    } else {
      var k := |plain| - 1;
      FieldsPlain(text, front, last, plain[..k]);
      FieldsChar(text + plain[..k], front, last + plain[..k], plain[k]);
      assert text + plain == text + plain[..k] + [plain[k]];
      assert last + plain == last + plain[..k] + [plain[k]];
    }
  }

  lemma FieldsChar(text: string, front: seq<string>, last: string, c: char)
    requires Fields(text) == front + [last] && c != ':'
    ensures Fields(text + [c]) == front + [last + [c]]
  {
    assert (text + [c])[..|text|] == text;
    assert (front + [last])[..|front|] == front;
  }

  lemma FieldsColon(text: string)
    ensures Fields(text + ":") == Fields(text) + [""]
  {
    assert (text + ":")[..|text|] == text;
  }

  lemma HexHasNoColon(w: word)
    ensures forall i | 0 <= i < |HexText(w)| :: HexText(w)[i] != ':'
    ensures IsGroup(HexText(w)) && HexNumeral(HexText(w)) == w
  {
    hide HexText, HexNumeral;
    HexTextRoundTrip(w);
    HexTextLength(w);
  }

  /** Joined words after a colon, or after nothing, add their texts as fields. */
  lemma {:induction false} FieldsJoin(text: string, front: seq<string>, ws: seq<word>)
    requires Fields(text) == front + [""]
    ensures Fields(text + Join(ws)) == front + (if ws == [] then [""] else Texts(ws))
  {
    hide HexText, Fields, Texts, Join;
    JoinEmpty(ws);
    if ws == [] {
      assert text + "" == text;
    } else {
      var init, last := ws[..|ws| - 1], ws[|ws| - 1];
      assert ws == init + [last];
      FieldsJoin(text, front, init);
      FieldsStep(text, front, init, last);
    }
  }

  lemma FieldsStep(text: string, front: seq<string>, init: seq<word>, last: word)
    requires Fields(text) == front + [""]
    requires Fields(text + Join(init)) == front + (if init == [] then [""] else Texts(init))
    ensures Fields(text + Join(init + [last])) == front + Texts(init + [last])
  {
    hide HexText, Fields, Texts, Join;
    var g := HexText(last);
    HexHasNoColon(last);
    JoinSnoc(init, last);
    TextsSnoc(init, last);
    if init == [] {
      FieldsFirst(text, front, g);
    } else {
      FieldsNext(text + Join(init), front + Texts(init), g);
      Assoc(text, Join(init), ":" + g);
      Assoc(Join(init), ":", g);
      Assoc(text + Join(init), ":", g);
      Assoc(front, Texts(init), [g]);
    }
  }

  lemma Assoc<T>(a: seq<T>, b: seq<T>, c: seq<T>)
    ensures a + (b + c) == a + b + c
  {
  }

  lemma FieldsFirst(text: string, front: seq<string>, g: string)
    requires Fields(text) == front + [""] && forall i | 0 <= i < |g| :: g[i] != ':'
    ensures Fields(text + ("" + g)) == front + ([] + [g])
  {
    hide Fields;
    FieldsPlain(text, front, "", g);
    assert "" + g == g;
    assert [] + [g] == [g];
  }

  lemma FieldsNext(text: string, fields: seq<string>, g: string)
    requires Fields(text) == fields && forall i | 0 <= i < |g| :: g[i] != ':'
    ensures Fields(text + ":" + g) == fields + [g]
  {
    hide Fields;
    FieldsColon(text);
    FieldsPlain(text + ":", fields, "", g);
    assert "" + g == g;
  }

  lemma TextsSnoc(ws: seq<word>, w: word)
    ensures Texts(ws + [w]) == Texts(ws) + [HexText(w)]
    ensures ws == [] ==> Texts(ws) == []
  {
    hide HexText;
  }

  lemma {:induction false} GroupsTexts(ws: seq<word>)
    ensures Groups(Texts(ws)) == Some(ws)
  {
    hide HexText, HexNumeral, IsGroup;
    if ws == [] {
    } else {
      var k := |ws| - 1;
      HexHasNoColon(ws[k]);
      assert Texts(ws)[..k] == Texts(ws[..k]);
      GroupsTexts(ws[..k]);
      assert ws == ws[..k] + [ws[k]];
    }
  }

  lemma SideTexts(ws: seq<word>)
    ensures Side(if ws == [] then [""] else Texts(ws)) == Some(ws)
  {
    hide HexText;
    if ws != [] {
      GroupsTexts(ws);
      assert Texts(ws)[0] != "";
    }
  }

  lemma {:induction false} NoGap(fields: seq<string>, i: nat)
    requires i >= 1 && forall k | i <= k < |fields| - 1 :: fields[k] != ""
    ensures GapFrom(fields, i) == |fields| + 1
    decreases |fields| - i
  {
    if i + 1 >= |fields| {
    } else {
      NoGap(fields, i + 1);
    }
  }

  lemma {:induction false} GapAt(fields: seq<string>, i: nat, k: nat)
    requires 1 <= i <= k < |fields| - 1 && fields[k] == "" && forall j | i <= j < k :: fields[j] != ""
    ensures GapFrom(fields, i) == k
    decreases k - i
  {
    if i == k {
    } else {
      GapAt(fields, i + 1, k);
    }
  }

  /** The fields of a rendered address. */
  lemma RenderedFields(ws: Address, start: int, len: int)
    requires BestRun(ws, start, len)
    ensures
      Fields(Rendered(ws, start, len)) ==
        if start == -1 then Texts(ws)
        else (if start == 0 then [""] else Texts(ws[..start]) + [""])
             + (if start + len == 8 then [""] else Texts(ws[start + len..]))
  {
    hide Join, Texts, Fields, BestRun;
    RunInside(ws, start, len);
    FieldsEmpty();
    if start == -1 {
      FieldsJoin("", [], ws);
      assert "" + Join(ws) == Join(ws);
    } else {
      var t := if start == 0 then "" else Join(ws[..start]) + ":";
      var front := if start == 0 then [] else Texts(ws[..start]);
      assert Fields(t) == front + [""] by {
        if start > 0 {
          FieldsJoin("", [], ws[..start]);
          assert "" + Join(ws[..start]) == Join(ws[..start]);
          FieldsColon(Join(ws[..start]));
        }
      }
      FieldsColon(t);
      assert t + ":" == Lead(ws, start);
      FieldsJoin(t + ":", front + [""], ws[start + len..]);
    }
  }

  lemma FieldsEmpty()
    ensures Fields("") == [""]
  {
  }

  lemma FillRun(ws: Address, start: int, len: int)
    requires start != -1 && BestRun(ws, start, len)
    ensures Fill(ws[..start], ws[start + len..]) == Some(ws)
  {
    assert ws == ws[..start] + ws[start..start + len] + ws[start + len..];
    assert ws[start..start + len] == seq(len, i => 0);
  }

  /**
   Every address is recovered from its text; by the rules of RFC 4291 alone exactly when the
   compressed run does not start at word 0, and a run at word 0 makes the text malformed.
   */
  lemma ExpandRendered(ws: Address, start: int, len: int, leading: bool)
    requires BestRun(ws, start, len)
    ensures Expand(Rendered(ws, start, len), leading) == if start == 0 && !leading then None else Some(ws)
  {
    hide Rendered, Fields, BestRun, Texts;
    RunInside(ws, start, len);
    RenderedFields(ws, start, len);
    TextsSize(ws);
    if start == -1 {
      ExpandAll(Rendered(ws, start, len), ws, leading);
    } else {
      var left, right := ws[..start], ws[start + len..];
      FillRun(ws, start, len);
      if start == 0 {
        ExpandLeading(Rendered(ws, start, len), right, leading);
      } else {
        ExpandRun(Rendered(ws, start, len), left, right, leading);
      }
    }
  }

  lemma TextsSize(ws: seq<word>)
    ensures |Texts(ws)| == |ws| && forall i | 0 <= i < |ws| :: Texts(ws)[i] != ""
  {
  }

  lemma ExpandAll(text: string, ws: Address, leading: bool)
    requires Fields(text) == Texts(ws)
    ensures Expand(text, leading) == Some(ws)
  {
    hide Fields, Texts, Groups;
    TextsSize(ws);
    NoGap(Texts(ws), 1);
    GroupsTexts(ws);
  }

  lemma ExpandLeading(text: string, right: seq<word>, leading: bool)
    requires Fields(text) == [""] + (if right == [] then [""] else Texts(right))
    ensures Expand(text, leading) == if leading then Fill([], right) else None
  {
    hide Fields, Texts, Groups, Fill, Side;
    var f, tail := Fields(text), if right == [] then [""] else Texts(right);
    TextsSize(right);
    NoGap(f, 1);
    assert f[1..] == tail;
    SideTexts(right);
    LeadingColon(tail);
  }

  lemma ExpandRun(text: string, left: seq<word>, right: seq<word>, leading: bool)
    requires left != [] && Fields(text) == Texts(left) + [""] + (if right == [] then [""] else Texts(right))
    ensures Expand(text, leading) == Fill(left, right)
  {
    hide Fields, Texts, Groups, Fill, Side;
    var f, k, tail := Fields(text), |left|, if right == [] then [""] else Texts(right);
    TextsSize(left);
    TextsSize(right);
    GapAt(f, 1, k);
    assert f[..k] == Texts(left) && f[k + 1..] == tail;
    SideTexts(left);
    SideTexts(right);
  }

  lemma RunInside(ws: Address, start: int, len: int)
    requires BestRun(ws, start, len)
    ensures start == -1 || (0 <= start && 2 <= len && start + len <= 8)
  {
  }

  lemma {:induction false} LeadingColon(tail: seq<string>)
    ensures Groups([""] + tail) == None
    decreases |tail|
  {
    if tail == [] {
      assert ([""] + tail)[..0] == [];
    } else {
      var k := |tail| - 1;
      assert ([""] + tail)[..k + 1] == [""] + tail[..k];
      LeadingColon(tail[..k]);
    }
  }

  /** No two addresses share a text. */
  lemma RenderedInjective(ws: Address, s: int, n: int, ws': Address, s': int, n': int)
    requires BestRun(ws, s, n) && BestRun(ws', s', n') && Rendered(ws, s, n) == Rendered(ws', s', n')
    ensures ws == ws'
  {
    hide Rendered, BestRun, Expand;
    RunInside(ws, s, n);
    RunInside(ws', s', n');
    assert Expand(Rendered(ws, s, n), true) == Some(ws) by { ExpandRendered(ws, s, n, true); }
    assert Expand(Rendered(ws', s', n'), true) == Some(ws') by { ExpandRendered(ws', s', n', true); }
  }

  /** The loopback address is written ":1", which RFC 4291 does not allow. */
  lemma LoopbackMalformed()
    ensures
      var ws: Address := [0, 0, 0, 0, 0, 0, 0, 1];
      BestRun(ws, 0, 7) && Rendered(ws, 0, 7) == ":1" && Expand(":1", false) == None
  {
    hide Expand;
    var ws: Address := [0, 0, 0, 0, 0, 0, 0, 1];
    assert forall i, n | ZeroRun(ws, i, n) :: n <= 7 by {
      assert ws[7] == 1;
    }
    assert BestRun(ws, 0, 7);
    assert ws[7..] == [1];
    assert HexText(1) == "1";
    ExpandRendered(ws, 0, 7, false);
  }
}
