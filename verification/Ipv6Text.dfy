/**
 The text of an address is canonical in the sense of RFC 5952, but for the single colon in front
 of a run at word 0: lower case, no leading zeros, the right run left out; and no other text
 keeping these rules stands for the address.
 */
module Ipv6Text {
  import opened Text
  import opened Wrappers
  import opened Ipv6

  /** Lower-case hexadecimal digits and colons only: section 4.3 of RFC 5952. */
  predicate LowerCase(text: string) {
    forall i | 0 <= i < |text| :: text[i] == ':' || text[i] in "0123456789abcdef"
  }

  /** A group without needless zeros in front: section 4.1 of RFC 5952. */
  predicate NoLeadingZero(group: string) {
    group == "" || group == "0" || group[0] != '0'
  }

  /** Exactly the words of the run are left out; a run at word 0 leaves one colon in front, any other two. */
  predicate LeavesOut(text: string, start: int, len: int) {
    var f := Fields(text);
    if start == -1 then
      |f| == 8 && forall i | 0 <= i < 8 :: f[i] != ""
    else
      && 0 <= start && 2 <= len && start + len <= 8
      && |f| == (if start + len == 8 then start + 2 else 9 - len)
      && forall i | 0 <= i < |f| :: f[i] == "" <==> i == start || (start + len == 8 && i == start + 1)
  }

  predicate Canonical(text: string, start: int, len: int) {
    && LowerCase(text) && LeavesOut(text, start, len)
    && forall i | 0 <= i < |Fields(text)| :: NoLeadingZero(Fields(text)[i])
  }

  // Groups

  predicate IsLower(c: char) {
    c in "0123456789abcdef"
  }

  predicate ShortGroup(s: string) {
    s != "" && NoLeadingZero(s) && forall i | 0 <= i < |s| :: IsLower(s[i])
  }

  lemma LowerValue(c: char)
    requires IsLower(c)
    ensures HexValue(c) < 16 && HexChar(HexValue(c)) == c && (HexValue(c) == 0 <==> c == '0')
  {
  }

  lemma LowerChar(d: nat)
    requires d < 16
    ensures IsLower(HexChar(d)) && (HexChar(d) == '0' <==> d == 0) && HexChar(d) != ':'
  {
  }

  /** `%x` writes exactly the groups without needless zeros. */
  lemma {:induction false} ShortIsHexText(s: string)
    requires ShortGroup(s)
    ensures s == HexText(HexNumeral(s))
    ensures s[0] != '0' ==> HexNumeral(s) >= 1
  {
    hide HexText, HexValue, HexChar, IsLower;
    var k := |s| - 1;
    assert s == s[..k] + [s[k]];
    LowerValue(s[k]);
    if k == 0 {
      assert HexNumeral(s[..0]) == 0;
      HexTextDigit(0, HexValue(s[k]));
    } else {
      ShortIsHexText(s[..k]);
      HexTextDigit(HexNumeral(s[..k]), HexValue(s[k]));
    }
  }

  lemma HexTextDigit(n: nat, d: nat)
    requires d < 16
    ensures HexText(16 * n + d) == (if n == 0 then [] else HexText(n)) + [HexChar(d)]
  {
    assert (16 * n + d) / 16 == n;
  }

  lemma {:induction false} HexTextShort(n: nat)
    ensures ShortGroup(HexText(n)) && (n > 0 ==> HexText(n)[0] != '0')
  {
    hide HexChar, IsLower;
    if n < 16 {
      LowerChar(n);
    } else {
      HexTextShort(n / 16);
      LowerChar(n % 16);
    }
  }

  lemma {:induction false} GroupsShort(fields: seq<string>, ws: seq<word>)
    requires Groups(fields) == Some(ws) && forall i | 0 <= i < |fields| :: ShortGroup(fields[i])
    ensures fields == Texts(ws)
  {
    hide HexText, HexNumeral, ShortGroup, IsGroup;
    if fields == [] {
    } else {
      var k := |fields| - 1;
      assert ws[..k] == Groups(fields[..k]).value;
      GroupsShort(fields[..k], ws[..k]);
      ShortIsHexText(fields[k]);
      TextsSnoc(ws[..k], ws[k]);
      assert ws == ws[..k] + [ws[k]] && fields == fields[..k] + [fields[k]];
    }
  }

  // Fields

  lemma {:induction false} FieldsInjective(a: string, b: string)
    requires Fields(a) == Fields(b)
    ensures a == b
  {
    if a == "" || b == "" {
      OneField(a);
      OneField(b);
    } else {
      var x, y := a[..|a| - 1], b[..|b| - 1];
      var f, g := Fields(x), Fields(y);
      LastField(a);
      LastField(b);
      assert a[|a| - 1] == b[|b| - 1];
      assert f == g;
      FieldsInjective(x, y);
      assert a == x + [a[|a| - 1]] && b == y + [b[|b| - 1]];
    }
  }

  lemma OneField(a: string)
    ensures Fields(a) == [""] <==> a == ""
  {
  }

  /** The last character and the fields without it, read off the fields. */
  lemma LastField(a: string)
    requires a != ""
    ensures
      var f, x := Fields(a), a[..|a| - 1];
      var last := f[|f| - 1];
      && (last == "" ==> a[|a| - 1] == ':' && Fields(x) == f[..|f| - 1])
      && (last != "" ==> a[|a| - 1] == last[|last| - 1] && Fields(x) == f[..|f| - 1] + [last[..|last| - 1]])
  {
    var f := Fields(a[..|a| - 1]);
    assert f == f[..|f| - 1] + [f[|f| - 1]];
  }

  ghost predicate InFields(c: char, f: seq<string>) {
    exists i | 0 <= i < |f| :: c in f[i]
  }

  lemma InFieldsSplit(c: char, f: seq<string>, g: string)
    ensures InFields(c, f + [g]) <==> InFields(c, f) || c in g
  {
    if InFields(c, f) {
      var i :| 0 <= i < |f| && c in f[i];
      assert c in (f + [g])[i];
    }
    if c in g {
      assert c in (f + [g])[|f|];
    }
  }

  /** The characters of a text are its colons and those of its fields. */
  lemma {:induction false} FieldChars(text: string, c: char)
    ensures InFields(c, Fields(text)) <==> c in text && c != ':'
  {
    hide InFields;
    if text == "" {
      InFieldsSplit(c, [], "");
      assert [] + [""] == [""];
      InNoFields(c);
    } else {
      var t, d := text[..|text| - 1], text[|text| - 1];
      FieldChars(t, c);
      FieldCharsStep(t, d, c);
      assert text == t + [d];
    }
  }

  lemma FieldCharsStep(t: string, d: char, c: char)
    requires InFields(c, Fields(t)) <==> c in t && c != ':'
    ensures InFields(c, Fields(t + [d])) <==> c in t + [d] && c != ':'
  {
    hide InFields, Fields;
    var f := Fields(t);
    if d == ':' {
      FieldsColon(t);
      assert [d] == ":";
      InFieldsSplit(c, f, "");
    } else {
      var front, last := f[..|f| - 1], f[|f| - 1];
      assert f == front + [last];
      FieldsChar(t, front, last, d);
      InFieldsSplit(c, front, last);
      InFieldsSplit(c, front, last + [d]);
    }
  }

  lemma InNoFields(c: char)
    ensures !InFields(c, [])
  {
  }

  // The rendered text keeps the rules

  lemma RenderedCanonical(ws: Address, start: int, len: int)
    requires BestRun(ws, start, len)
    ensures Canonical(Rendered(ws, start, len), start, len)
  {
    hide Rendered, Fields, BestRun, Texts, NoLeadingZero;
    RunInside(ws, start, len);
    var text := Rendered(ws, start, len);
    var f := Fields(text);
    RenderedFields(ws, start, len);
    TextsShort(ws);
    if start != -1 {
      TextsShort(ws[..start]);
      TextsShort(ws[start + len..]);
    }
    NoZeroInNothing();
    assert ShortFields(f);
    assert forall i | 0 <= i < |f| :: NoLeadingZero(f[i]);
    ShortIsLower(text);
  }

  lemma NoZeroInNothing()
    ensures NoLeadingZero("")
  {
  }

  lemma TextsShort(ws: seq<word>)
    ensures |Texts(ws)| == |ws| && forall i | 0 <= i < |ws| :: Texts(ws)[i] != "" && ShortGroup(Texts(ws)[i])
  {
    hide HexText;
    forall i | 0 <= i < |ws|
      ensures ShortGroup(Texts(ws)[i])
    {
      HexTextShort(ws[i]);
    }
  }

  ghost predicate ShortFields(f: seq<string>) {
    forall i | 0 <= i < |f| :: f[i] == "" || ShortGroup(f[i])
  }

  lemma ShortIsLower(text: string)
    requires ShortFields(Fields(text))
    ensures LowerCase(text)
  {
    hide Fields;
    forall k | 0 <= k < |text|
      ensures text[k] == ':' || text[k] in "0123456789abcdef"
    {
      FieldChars(text, text[k]);
      if text[k] != ':' {
        var f := Fields(text);
        var i :| 0 <= i < |f| && text[k] in f[i];
        var j :| 0 <= j < |f[i]| && f[i][j] == text[k];
        assert IsLower(f[i][j]);
      }
    }
  }

  lemma LowerIsShort(text: string)
    requires LowerCase(text) && forall i | 0 <= i < |Fields(text)| :: NoLeadingZero(Fields(text)[i])
    ensures ShortFields(Fields(text))
  {
    hide Fields, NoLeadingZero;
    var f := Fields(text);
    forall i, k | 0 <= i < |f| && 0 <= k < |f[i]|
      ensures IsLower(f[i][k])
    {
      FieldChars(text, f[i][k]);
      assert f[i][k] in f[i];
      assert InFields(f[i][k], f);
    }
  }

  // No other text does

  lemma SideShort(fields: seq<string>, ws: seq<word>)
    requires Side(fields) == Some(ws) && fields != []
    requires fields == [""] || forall i | 0 <= i < |fields| :: ShortGroup(fields[i])
    ensures fields == if ws == [] then [""] else Texts(ws)
  {
    hide ShortGroup, Texts;
    if fields != [""] {
      GroupsShort(fields, ws);
    }
  }

  lemma FillParts(left: seq<word>, right: seq<word>, ws: Address)
    requires Fill(left, right) == Some(ws)
    ensures |left| + |right| <= 7 && left == ws[..|left|] && right == ws[8 - |right|..]
  {
  }

  /** The fields of a canonical text of `ws` are those of the rendered one. */
  lemma CanonicalFields(text: string, ws: Address, start: int, len: int)
    requires LeavesOut(text, start, len) && Expand(text, true) == Some(ws) && ShortFields(Fields(text))
    ensures
      Fields(text) ==
        if start == -1 then Texts(ws)
        else (if start == 0 then [""] else Texts(ws[..start]) + [""])
             + (if start + len == 8 then [""] else Texts(ws[start + len..]))
  {
    hide Fields, Groups, Texts, ShortGroup, Side, Fill, Expand;
    if start == -1 {
      AllFields(text, ws);
    } else if start == 0 {
      LeadingFields(text, ws, len);
    } else {
      RunFields(text, ws, start, len);
    }
  }

  lemma AllFields(text: string, ws: Address)
    requires LeavesOut(text, -1, 0) && Expand(text, true) == Some(ws) && ShortFields(Fields(text))
    ensures Fields(text) == Texts(ws)
  {
    hide Fields, Groups, Texts, ShortGroup, Side, Fill;
    var f := Fields(text);
    NoGap(f, 1);
    GroupsShort(f, ws);
  }

  lemma LeadingFields(text: string, ws: Address, len: int)
    requires LeavesOut(text, 0, len) && Expand(text, true) == Some(ws) && ShortFields(Fields(text))
    ensures Fields(text) == [""] + (if len == 8 then [""] else Texts(ws[len..]))
  {
    hide Fields, Groups, Texts, ShortGroup, Side, Fill;
    var f := Fields(text);
    NoGap(f, 1);
    RightSide(f, [], ws, 0, len);
    assert f == [""] + f[1..];
  }

  lemma RunFields(text: string, ws: Address, start: int, len: int)
    requires start > 0 && LeavesOut(text, start, len)
    requires Expand(text, true) == Some(ws) && ShortFields(Fields(text))
    ensures Fields(text) == Texts(ws[..start]) + [""] + (if start + len == 8 then [""] else Texts(ws[start + len..]))
  {
    hide Fields, Groups, Texts, ShortGroup, Side, Fill;
    var f := Fields(text);
    GapAt(f, 1, start);
    var left := Side(f[..start]).value;
    LeftSide(f, left, start);
    RightSide(f, left, ws, start, len);
    assert f == f[..start] + [""] + f[start + 1..];
  }

  lemma LeftSide(f: seq<string>, left: seq<word>, start: nat)
    requires 0 < start <= |f| && Side(f[..start]) == Some(left)
    requires forall i | 0 <= i < start :: ShortGroup(f[i])
    ensures |left| == start && f[..start] == Texts(left)
  {
    hide Texts;
    assert f[..start][0] == f[0];
    GroupsShort(f[..start], left);
  }

  lemma RightSide(f: seq<string>, left: seq<word>, ws: Address, start: nat, len: int)
    requires 2 <= len && start + len <= 8 && |left| == start
    requires |f| == (if start + len == 8 then start + 2 else 9 - len) && f[start] == ""
    requires forall i | start < i < |f| :: if start + len == 8 then f[i] == "" else ShortGroup(f[i])
    requires Side(f[start + 1..]).Some? && Fill(left, Side(f[start + 1..]).value) == Some(ws)
    ensures left == ws[..start]
    ensures f[start + 1..] == if start + len == 8 then [""] else Texts(ws[start + len..])
  {
    hide Texts, Groups, ShortGroup, Fill;
    var tail := f[start + 1..];
    var right := Side(tail).value;
    FillParts(left, right, ws);
    if start + len == 8 {
      assert tail == [""];
    } else {
      assert forall i | 0 <= i < |tail| :: ShortGroup(tail[i]);
      TailNotEmpty(tail);
      GroupsShort(tail, right);
      TextsSize(right);
    }
  }

  lemma TailNotEmpty(tail: seq<string>)
    requires tail != [] && ShortGroup(tail[0])
    ensures Side(tail) == Groups(tail)
  {
  }

  /** The rendered text is the one canonical text that stands for the address. */
  lemma RenderedUnique(ws: Address, start: int, len: int, text: string)
    requires BestRun(ws, start, len)
    ensures text == Rendered(ws, start, len) <==> Canonical(text, start, len) && Expand(text, true) == Some(ws)
  {
    hide Rendered, BestRun, Expand, Fields, LeavesOut, LowerCase, NoLeadingZero, ShortGroup;
    RunInside(ws, start, len);
    RenderedCanonical(ws, start, len);
    ExpandRendered(ws, start, len, true);
    if Canonical(text, start, len) && Expand(text, true) == Some(ws) {
      LowerIsShort(text);
      CanonicalFields(text, ws, start, len);
      RenderedFields(ws, start, len);
      FieldsInjective(text, Rendered(ws, start, len));
    }
  }
}
