/**
 Exact decimals of the Go binding: a 64-bit coefficient and a scale of 0 to 255,
 their text, and the parser of decimal text.
 */
module Decimals {
  import opened Machine
  import opened Text
  import opened Wrappers

  datatype Decimal = Decimal(unscaled: i64, scale: int)

  /** `Decimal.validate`. */
  predicate Valid(d: Decimal) {
    0 <= d.scale <= 255
  }

  /** Digits padded so that at least one stands before the point. */
  function Filled(digits: string, scale: nat): (r: string)
    ensures |r| > scale
  {
    if |digits| <= scale then Zeros(scale + 1 - |digits|) + digits else digits
  }

  /** `Decimal.String`. */
  function ToText(d: Decimal): string {
    if !Valid(d) then "<invalid decimal>" else
      var digits := IntText(d.unscaled);
      if d.scale == 0 then digits else
        var negative := digits != "" && digits[0] == '-';
        var sign := if negative then "-" else "";
        var magnitude := if negative then digits[1..] else digits;
        var padded := Filled(magnitude, d.scale);
        var point := |padded| - d.scale;
        sign + padded[..point] + "." + padded[point..]
  }

  // The parser

  /** White space as `strings.TrimSpace` sees it. */
  predicate IsSpace(c: char) {
    || c in "\t\n\U{0B}\U{0C}\r " || c == '\U{85}' || c == '\U{A0}' || c == '\U{1680}'
    || '\U{2000}' <= c <= '\U{200A}' || c == '\U{2028}' || c == '\U{2029}'
    || c == '\U{202F}' || c == '\U{205F}' || c == '\U{3000}'
  }

  function TrimLeft(s: string): string {
    if s != "" && IsSpace(s[0]) then TrimLeft(s[1..]) else s
  }

  function TrimRight(s: string): string {
    if s != "" && IsSpace(s[|s| - 1]) then TrimRight(s[..|s| - 1]) else s
  }

  predicate IsMarker(c: char) {
    c == 'e' || c == 'E'
  }

  /** The index of the first character satisfying `p`, or the length. */
  function Find(s: string, p: char -> bool): (i: nat)
    ensures i <= |s| && (forall j | 0 <= j < i :: !p(s[j])) && (i < |s| ==> p(s[i]))
  {
    if s == "" || p(s[0]) then 0 else 1 + Find(s[1..], p)
  }

  predicate Signed(s: string) {
    s != "" && (s[0] == '-' || s[0] == '+')
  }

  /** `strconv.Atoi`; numbers beyond the width of `int` are out of range for the caller anyway. */
  function Atoi(s: string): Option<int> {
    var digits := if Signed(s) then s[1..] else s;
    if digits == "" || !AllDigits(digits) then None
    else Some(if Signed(s) && s[0] == '-' then -(Numeral(digits) as int) else Numeral(digits))
  }

  datatype Reading = Reading(coefficient: int, scale: int)

  predicate IsPoint(c: char) {
    c == '.'
  }

  /** Digits with at most one point among them: the number without the point, and the digits after it. */
  function ReadBody(body: string): Option<Reading> {
    var point := Find(body, IsPoint);
    var scale := if point < |body| then |body| - point - 1 else 0;
    var digits := if point < |body| then body[..point] + body[point + 1..] else body;
    if digits == "" || !AllDigits(digits) then None else Some(Reading(Numeral(digits), scale))
  }

  function ReadMantissa(mantissa: string, exponent: int): Option<Reading> {
    var body := ReadBody(if Signed(mantissa) then mantissa[1..] else mantissa);
    if body.None? then None else
      var negative := Signed(mantissa) && mantissa[0] == '-';
      Some(Reading(if negative then -body.value.coefficient else body.value.coefficient, body.value.scale - exponent))
  }

  /** Text without surrounding white space. */
  function ReadCore(core: string): Option<Reading> {
    var index := Find(core, IsMarker);
    if index < |core| then
      var exponent := Atoi(core[index + 1..]);
      if exponent.None? || exponent.value < -255 || exponent.value > 255 then None
      else ReadMantissa(core[..index], exponent.value)
    else
      ReadMantissa(core, 0)
  }

  /** `parseDecimalText` up to the point where the coefficient is known. */
  function Read(text: string): Option<Reading> {
    ReadCore(TrimRight(TrimLeft(text)))
  }

  /** The normalising loop: drop a zero digit as long as the coefficient or the scale does not fit. */
  function Fit(c: int, s: nat): Option<Decimal>
    decreases s
  {
    if s > 0 && (s > 255 || !IsInt64(c)) then
      (if c % 10 != 0 then None else Fit(c / 10, s - 1))
    else if s > 255 || !IsInt64(c) then None
    else Some(Decimal(c, s))
  }

  function Unscale(r: Reading): Reading {
    if r.scale < 0 then Reading(r.coefficient * Pow10(-r.scale), 0) else r
  }

  /** `parseDecimalText`. */
  function Parse(text: string): Option<Decimal> {
    var r := Read(text);
    if r.None? then None else
      var u := Unscale(r.value);
      Fit(u.coefficient, u.scale)
  }

  // Exactness of the normalising loop

  /** c / 10^s == m / 10^t as rationals. */
  predicate SameValue(c: int, s: nat, m: int, t: int) {
    if t >= 0 then c * Pow10(t) == m * Pow10(s) else c == m * Pow10(-t) * Pow10(s)
  }

  /** `d` denotes the number that was read. */
  predicate Denotes(d: Decimal, r: Reading) {
    Valid(d) && SameValue(d.unscaled, d.scale, r.coefficient, r.scale)
  }

  lemma {:induction false} Pow10Sum(j: nat, k: nat)
    ensures Pow10(j + k) == Pow10(j) * Pow10(k)
  {
    if j == 0 {
    } else {
      Pow10Sum(j - 1, k);
      assert 10 * Pow10(j - 1) * Pow10(k) == 10 * (Pow10(j - 1) * Pow10(k));
    }
  }

  lemma MulCancel(a: int, b: int, p: int)
    requires p >= 1
    ensures a * p == b * p <==> a == b
  {
    if a < b {
      assert (b - a) * p >= 1;
    } else if b < a {
      assert (a - b) * p >= 1;
    }
  }

  /** Equality of a decimal with more digits is equality after scaling up the one with fewer. */
  lemma ScaleUp(u: int, k: nat, c: int, s: nat)
    requires k <= s
    ensures u * Pow10(s) == c * Pow10(k) <==> u * Pow10(s - k) == c
  {
    Pow10Sum(s - k, k);
    var p, q := Pow10(s - k), Pow10(k);
    assert u * (p * q) == (u * p) * q;
    MulCancel(u * p, c, q);
  }

  lemma TenTimes(u: int, k: nat)
    ensures k == 0 ==> Pow10(k) == 1 && u * Pow10(k) == u
    ensures k > 0 ==> u * Pow10(k) == 10 * (u * Pow10(k - 1))
  {
    if k > 0 {
      var p := Pow10(k - 1);
      assert u * (10 * p) == 10 * (u * p);
    }
  }

  lemma {:induction false} FitSound(c: int, s: nat)
    ensures Fit(c, s).Some? ==>
              var d := Fit(c, s).value;
              0 <= d.scale <= s && d.scale <= 255 && d.unscaled * Pow10(s - d.scale) == c
    decreases s
  {
    hide Pow10, IsInt64;
    if s == 0 || (s <= 255 && IsInt64(c)) {
      assert Pow10(0) == 1 by {
        TenTimes(c, 0);
      }
    } else {
      if c % 10 == 0 && Fit(c / 10, s - 1).Some? {
        FitSound(c / 10, s - 1);
        var d := Fit(c / 10, s - 1).value;
        TenTimes(d.unscaled, s - d.scale);
      }
    }
  }

  lemma {:induction false} FitComplete(c: int, s: nat, u: i64, k: nat)
    requires k <= s && k <= 255 && u * Pow10(s - k) == c
    ensures Fit(c, s).Some? && Fit(c, s).value.scale >= k
    decreases s
  {
    if k == s {
      assert u * Pow10(0) == u;
    } else if s > 255 || !IsInt64(c) {
      TenTimes(u, s - k);
      assert c / 10 == u * Pow10(s - k - 1);
      FitComplete(c / 10, s - 1, u, k);
    }
  }

  lemma SameValueUnscaled(c: int, s: nat, r: Reading)
    ensures SameValue(c, s, r.coefficient, r.scale)
            <==> var u := Unscale(r); c * Pow10(u.scale) == u.coefficient * Pow10(s)
  {
  }

  /** A decimal with more digits than were read needs none of the normalisation. */
  lemma FitWider(c: int, s: nat, u: i64, k: nat)
    requires s < k <= 255 && u * Pow10(s) == c * Pow10(k)
    ensures IsInt64(c) && Fit(c, s) == Some(Decimal(c, s))
  {
    hide Pow10;
    ScaleUp(c, s, u, k);
    Magnitude(c, Pow10(k - s), u);
  }

  lemma Magnitude(c: int, p: int, u: int)
    requires p >= 1 && c * p == u
    ensures 0 <= c <= u || u <= c <= 0
  {
    if c >= 0 {
      assert c * (p - 1) >= 0;
    } else {
      assert -c * (p - 1) >= 0;
    }
  }

  /**
   The loop succeeds exactly when some decimal denotes the number that was read, and then
   yields the one of largest scale that does not exceed the scale of the text.
   */
  lemma FitDecides(r: Reading)
    ensures
      var f := Fit(Unscale(r).coefficient, Unscale(r).scale);
      && (f.Some? <==> exists d :: Denotes(d, r))
      && (f.Some? ==> Denotes(f.value, r) && f.value.scale <= Unscale(r).scale)
      && (forall d | Denotes(d, r) && d.scale <= Unscale(r).scale :: f.Some? && d.scale <= f.value.scale)
  {
    hide SameValue, Fit;
    var u := Unscale(r);
    var f := Fit(u.coefficient, u.scale);
    FitSound(u.coefficient, u.scale);
    if f.Some? {
      ScaleUp(f.value.unscaled, f.value.scale, u.coefficient, u.scale);
      SameValueUnscaled(f.value.unscaled, f.value.scale, r);
      assert Denotes(f.value, r);
    }
    forall d | Denotes(d, r)
      ensures f.Some? && (d.scale <= u.scale ==> d.scale <= f.value.scale)
    {
      SameValueUnscaled(d.unscaled, d.scale, r);
      if d.scale <= u.scale {
        ScaleUp(d.unscaled, d.scale, u.coefficient, u.scale);
        FitComplete(u.coefficient, u.scale, d.unscaled, d.scale);
      } else {
        FitWider(u.coefficient, u.scale, d.unscaled, d.scale);
      }
    }
  }

  // The grammar of decimal text

  datatype Exponent = Exponent(marker: char, sign: string, digits: string)

  datatype Syntax = Syntax(
    before: string, sign: string, whole: string, fraction: Option<string>, exponent: Option<Exponent>, after: string)

  predicate AllSpace(s: string) {
    forall i | 0 <= i < |s| :: IsSpace(s[i])
  }

  predicate IsSign(s: string) {
    s == "" || s == "+" || s == "-"
  }

  predicate WellFormedExponent(e: Exponent) {
    IsMarker(e.marker) && IsSign(e.sign) && e.digits != "" && AllDigits(e.digits) && Numeral(e.digits) <= 255
  }

  /** At least one digit before or after the point, and an exponent of at most 255 in magnitude. */
  predicate WellFormed(x: Syntax) {
    && AllSpace(x.before) && AllSpace(x.after) && IsSign(x.sign)
    && AllDigits(x.whole) && AllDigits(Fraction(x)) && x.whole + Fraction(x) != ""
    && (x.exponent.Some? ==> WellFormedExponent(x.exponent.value))
  }

  function Fraction(x: Syntax): string {
    if x.fraction.Some? then x.fraction.value else ""
  }

  function Body(x: Syntax): string {
    x.whole + (if x.fraction.Some? then "." + x.fraction.value else "")
  }

  function ExponentText(x: Syntax): string {
    if x.exponent.Some? then [x.exponent.value.marker] + (x.exponent.value.sign + x.exponent.value.digits) else ""
  }

  function Core(x: Syntax): string {
    x.sign + Body(x) + ExponentText(x)
  }

  function Render(x: Syntax): string {
    x.before + Core(x) + x.after
  }

  function Signify(sign: string, n: nat): int {
    if sign == "-" then -(n as int) else n
  }

  function ExponentOf(x: Syntax): int {
    if x.exponent.Some? then Signify(x.exponent.value.sign, Numeral(x.exponent.value.digits)) else 0
  }

  /** The number a text denotes: coefficient / 10^scale. */
  function Meaning(x: Syntax): Reading {
    Reading(Signify(x.sign, Numeral(x.whole + Fraction(x))), |Fraction(x)| - ExponentOf(x))
  }

  // Every well-formed text is read as what it denotes

  lemma FindIs(s: string, p: char -> bool, k: nat)
    requires k <= |s| && (forall j | 0 <= j < k :: !p(s[j])) && (k < |s| ==> p(s[k]))
    ensures Find(s, p) == k
  {
  }

  lemma {:induction false} TrimLeftSpaces(ws: string, s: string)
    requires AllSpace(ws) && s != "" && !IsSpace(s[0])
    ensures TrimLeft(ws + s) == s
  {
    hide IsSpace;
    if ws == "" {
      assert ws + s == s;
    } else {
      assert (ws + s)[1..] == ws[1..] + s;
      TrimLeftSpaces(ws[1..], s);
    }
  }

  lemma {:induction false} TrimRightSpaces(s: string, ws: string)
    requires AllSpace(ws) && s != "" && !IsSpace(s[|s| - 1])
    ensures TrimRight(s + ws) == s
  {
    hide IsSpace;
    if ws == "" {
      assert s + ws == s;
    } else {
      assert (s + ws)[..|s + ws| - 1] == s + ws[..|ws| - 1];
      TrimRightSpaces(s, ws[..|ws| - 1]);
    }
  }

  /** Signs, digits, points and markers are not white space. */
  lemma PlainChar(c: char)
    requires IsDigit(c) || c == '.' || c == '+' || c == '-' || IsMarker(c)
    ensures !IsSpace(c)
  {
  }

  lemma CorePlain(x: Syntax)
    requires WellFormed(x)
    ensures forall i | 0 <= i < |Core(x)| :: !IsSpace(Core(x)[i])
    ensures forall i | 0 <= i < |x.sign + Body(x)| :: !IsMarker((x.sign + Body(x))[i])
    ensures Core(x) != ""
  {
    hide IsSpace, Numeral;
    var c := Core(x);
    forall i | 0 <= i < |c|
      ensures !IsSpace(c[i])
    {
      assert IsDigit(c[i]) || c[i] == '.' || c[i] == '+' || c[i] == '-' || IsMarker(c[i]);
      PlainChar(c[i]);
    }
    assert x.whole != "" || x.fraction.Some?;
  }

  lemma TrimRendered(x: Syntax)
    requires WellFormed(x)
    ensures TrimRight(TrimLeft(Render(x))) == Core(x)
  {
    hide IsSpace, Core, WellFormedExponent;
    CorePlain(x);
    var c := Core(x);
    assert Render(x) == x.before + (c + x.after);
    TrimLeftSpaces(x.before, c + x.after);
    TrimRightSpaces(c, x.after);
  }

  lemma DigitNotSign(s: string)
    requires AllDigits(s)
    ensures !Signed(s)
  {
  }

  lemma AtoiRendered(sign: string, digits: string)
    requires IsSign(sign) && digits != "" && AllDigits(digits)
    ensures Atoi(sign + digits) == Some(Signify(sign, Numeral(digits)))
  {
    hide Numeral;
    DigitNotSign(digits);
    if sign == "" {
      assert sign + digits == digits;
    } else {
      assert (sign + digits)[1..] == digits;
    }
  }

  lemma MantissaRendered(x: Syntax, e: int)
    requires WellFormed(x)
    ensures ReadMantissa(x.sign + Body(x), e) ==
              Some(Reading(Signify(x.sign, Numeral(x.whole + Fraction(x))), |Fraction(x)| - e))
  {
    hide ReadBody, WellFormed, Body, Numeral;
    var m, b := x.sign + Body(x), Body(x);
    BodyUnsigned(x);
    BodyRendered(x);
    SignIs(x);
    if x.sign == "" {
      assert m == b;
    } else {
      assert m[1..] == b;
    }
  }

  lemma SignIs(x: Syntax)
    requires WellFormed(x)
    ensures IsSign(x.sign)
  {
  }

  lemma BodyRendered(x: Syntax)
    requires WellFormed(x)
    ensures ReadBody(Body(x)) == Some(Reading(Numeral(x.whole + Fraction(x)), |Fraction(x)|))
  {
    hide Numeral, IsSpace, WellFormedExponent;
    var b := Body(x);
    FindIs(b, IsPoint, |x.whole|);
    if x.fraction.Some? {
      assert b[..|x.whole|] == x.whole && b[|x.whole| + 1..] == x.fraction.value;
    } else {
      assert b == x.whole && x.whole + Fraction(x) == x.whole;
    }
  }

  lemma BodyUnsigned(x: Syntax)
    requires WellFormed(x)
    ensures !Signed(Body(x))
  {
    hide Numeral, IsSpace, WellFormedExponent;
  }

  lemma ReadRendered(x: Syntax)
    requires WellFormed(x)
    ensures Read(Render(x)) == Some(Meaning(x))
  {
    hide Numeral, IsSpace, ReadMantissa, Atoi, Body, Render, WellFormed, Core;
    TrimRendered(x);
    CoreSplit(x);
    MantissaRendered(x, ExponentOf(x));
    if x.exponent.Some? {
      var e := x.exponent.value;
      ExponentIs(x);
      AtoiRendered(e.sign, e.digits);
    } else {
      assert Core(x) == x.sign + Body(x);
    }
  }

  lemma ExponentIs(x: Syntax)
    requires WellFormed(x) && x.exponent.Some?
    ensures WellFormedExponent(x.exponent.value)
  {
  }

  /** The first marker of a trimmed text separates the mantissa from the exponent. */
  lemma CoreSplit(x: Syntax)
    requires WellFormed(x)
    ensures
      var c, m := Core(x), x.sign + Body(x);
      && Find(c, IsMarker) == |m| <= |c| && c[..|m|] == m
      && (x.exponent.Some? <==> |m| < |c|)
      && (x.exponent.Some? ==> c[|m| + 1..] == x.exponent.value.sign + x.exponent.value.digits)
  {
    hide WellFormed, Body;
    CorePlain(x);
    var c, m, t := Core(x), x.sign + Body(x), ExponentText(x);
    assert c == m + t;
    if x.exponent.Some? {
      ExponentIs(x);
      assert t[1..] == x.exponent.value.sign + x.exponent.value.digits;
      assert c[|m|] == t[0] && c[|m| + 1..] == t[1..];
    }
    FindIs(c, IsMarker, |m|);
  }

  // Every text that is read is well formed

  lemma {:induction false} TrimLeftSplit(s: string) returns (ws: string)
    ensures AllSpace(ws) && s == ws + TrimLeft(s)
  {
    hide IsSpace;
    if s != "" && IsSpace(s[0]) {
      var rest := TrimLeftSplit(s[1..]);
      ws := [s[0]] + rest;
      assert s == [s[0]] + s[1..];
      assert [s[0]] + (rest + TrimLeft(s[1..])) == ws + TrimLeft(s[1..]);
    } else {
      ws := "";
    }
  }

  lemma {:induction false} TrimRightSplit(s: string) returns (ws: string)
    ensures AllSpace(ws) && s == TrimRight(s) + ws
  {
    hide IsSpace;
    if s != "" && IsSpace(s[|s| - 1]) {
      var k := |s| - 1;
      var rest := TrimRightSplit(s[..k]);
      ws := rest + [s[k]];
      assert s == s[..k] + [s[k]];
      assert (TrimRight(s[..k]) + rest) + [s[k]] == TrimRight(s[..k]) + ws;
    } else {
      ws := "";
    }
  }

  lemma SignSplit(s: string) returns (sign: string, rest: string)
    ensures IsSign(sign) && s == sign + rest
    ensures rest == (if Signed(s) then s[1..] else s)
    ensures sign == "-" <==> Signed(s) && s[0] == '-'
  {
    if Signed(s) {
      sign, rest := s[..1], s[1..];
      assert s[..1] == [s[0]];
    } else {
      sign, rest := "", s;
    }
  }

  lemma DigitsSplit(a: string, b: string)
    requires AllDigits(a + b)
    ensures AllDigits(a) && AllDigits(b)
  {
    assert forall i | 0 <= i < |a| :: a[i] == (a + b)[i];
    assert forall i | 0 <= i < |b| :: b[i] == (a + b)[|a| + i];
  }

  lemma BodySplit(body: string) returns (whole: string, fraction: Option<string>)
    requires ReadBody(body).Some?
    ensures
      var x := Syntax("", "", whole, fraction, None, "");
      && AllDigits(whole) && AllDigits(Fraction(x)) && whole + Fraction(x) != "" && Body(x) == body
      && ReadBody(body).value == Reading(Numeral(whole + Fraction(x)), |Fraction(x)|)
  {
    hide Numeral, AllDigits;
    var point := Find(body, IsPoint);
    if point < |body| {
      whole, fraction := body[..point], Some(body[point + 1..]);
      DigitsSplit(whole, fraction.value);
      assert body == whole + ("." + fraction.value);
    } else {
      whole, fraction := body, None;
      assert body + "" == body;
      DigitsSplit(whole, "");
    }
  }

  lemma MantissaSplit(m: string, e: int) returns (sign: string, whole: string, fraction: Option<string>)
    requires ReadMantissa(m, e).Some?
    ensures
      var x := Syntax("", sign, whole, fraction, None, "");
      && WellFormed(x) && sign + Body(x) == m
      && ReadMantissa(m, e).value == Reading(Signify(sign, Numeral(whole + Fraction(x))), |Fraction(x)| - e)
  {
    hide Numeral, IsSpace, ReadBody;
    var body;
    sign, body := SignSplit(m);
    whole, fraction := BodySplit(body);
  }

  lemma ExponentSplit(t: string) returns (sign: string, digits: string)
    requires Atoi(t).Some?
    ensures IsSign(sign) && digits != "" && AllDigits(digits) && t == sign + digits
    ensures Atoi(t).value == Signify(sign, Numeral(digits))
  {
    hide Numeral;
    sign, digits := SignSplit(t);
  }

  lemma CoreSound(c: string) returns (x: Syntax)
    requires ReadCore(c).Some?
    ensures WellFormed(x) && x.before == "" && x.after == "" && Core(x) == c && Meaning(x) == ReadCore(c).value
  {
    hide Numeral, IsSpace, ReadMantissa, Atoi, Body;
    var index := Find(c, IsMarker);
    if index < |c| {
      var t := c[index + 1..];
      var e := Atoi(t).value;
      var sign, whole, fraction := MantissaSplit(c[..index], e);
      var exponentSign, digits := ExponentSplit(t);
      x := Syntax("", sign, whole, fraction, Some(Exponent(c[index], exponentSign, digits)), "");
      SameBody(x, Syntax("", sign, whole, fraction, None, ""));
      assert c == c[..index] + ([c[index]] + t);
    } else {
      var sign, whole, fraction := MantissaSplit(c, 0);
      x := Syntax("", sign, whole, fraction, None, "");
      assert c + "" == c;
    }
  }

  lemma SameBody(x: Syntax, y: Syntax)
    requires x.whole == y.whole && x.fraction == y.fraction
    ensures Body(x) == Body(y) && Fraction(x) == Fraction(y)
  {
  }

  lemma ReadSound(text: string) returns (x: Syntax)
    requires Read(text).Some?
    ensures WellFormed(x) && Render(x) == text && Meaning(x) == Read(text).value
  {
    hide Numeral, IsSpace, TrimLeft, TrimRight, ReadCore, AllSpace;
    var before := TrimLeftSplit(text);
    var after := TrimRightSplit(TrimLeft(text));
    var c := TrimRight(TrimLeft(text));
    var y := CoreSound(c);
    x := y.(before := before, after := after);
    assert text == before + c + after;
  }

  /** What is read is exactly what the grammar allows, with the number it denotes. */
  lemma ReadDecides(text: string, r: Reading)
    ensures Read(text) == Some(r) <==> exists x :: WellFormed(x) && Render(x) == text && Meaning(x) == r
  {
    hide Read, WellFormed, Render, Meaning;
    if Read(text) == Some(r) {
      var x := ReadSound(text);
    }
    if x :| WellFormed(x) && Render(x) == text && Meaning(x) == r {
      ReadRendered(x);
    }
  }

  // The theorem

  /** `parseDecimalText` accepts a text exactly when it is well formed and some decimal denotes it exactly. */
  lemma ParseDecides(text: string)
    ensures Parse(text).Some? <==> exists x, d :: WellFormed(x) && Render(x) == text && Denotes(d, Meaning(x))
  {
    hide Read, WellFormed, Render, Meaning, Denotes, Fit, Unscale;
    if Read(text).Some? {
      FitDecides(Read(text).value);
      var x := ReadSound(text);
    }
    forall x, d | WellFormed(x) && Render(x) == text && Denotes(d, Meaning(x))
      ensures Parse(text).Some?
    {
      ReadRendered(x);
      FitDecides(Meaning(x));
    }
  }

  /** The parsed decimal denotes the text exactly, and has the largest scale that does, up to the scale of the text. */
  lemma ParseExact(x: Syntax, d: Decimal)
    requires WellFormed(x) && Parse(Render(x)) == Some(d)
    ensures Denotes(d, Meaning(x))
    ensures var limit := if Meaning(x).scale < 0 then 0 else Meaning(x).scale;
            d.scale <= limit && forall d' | Denotes(d', Meaning(x)) && d'.scale <= limit :: d'.scale <= d.scale
  {
    hide Read, WellFormed, Render, Meaning, Denotes, Fit;
    ReadRendered(x);
    FitDecides(Meaning(x));
  }

  // Printing and parsing

  function Magnitude64(n: i64): nat {
    if n < 0 then -(n as int) else n
  }

  function SignOf(n: i64): string {
    if n < 0 then "-" else ""
  }

  function PaddedText(d: Decimal): (r: string)
    requires Valid(d)
    ensures |r| > d.scale
  {
    Filled(NatText(Magnitude64(d.unscaled)), d.scale)
  }

  lemma ToTextParts(d: Decimal)
    requires Valid(d)
    ensures d.scale == 0 ==> ToText(d) == SignOf(d.unscaled) + NatText(Magnitude64(d.unscaled))
    ensures d.scale > 0 ==>
              var point := |PaddedText(d)| - d.scale;
              ToText(d) == SignOf(d.unscaled) + PaddedText(d)[..point] + "." + PaddedText(d)[point..]
  {
    hide NatText, IntText, Filled, Magnitude64;
    IntTextParts(d.unscaled);
  }

  lemma IntTextParts(n: i64)
    ensures
      var text, magnitude := IntText(n), NatText(Magnitude64(n));
      && text != "" && (text[0] == '-' <==> n < 0) && text == SignOf(n) + magnitude
      && magnitude == if text[0] == '-' then text[1..] else text
  {
    hide NatText;
    NatTextRoundTrip(Magnitude64(n));
    NotMinus(NatText(Magnitude64(n)));
  }

  /** The syntax `ToText` prints. */
  lemma TextSyntax(d: Decimal) returns (x: Syntax)
    requires Valid(d)
    ensures WellFormed(x) && Render(x) == ToText(d) && Meaning(x) == Reading(d.unscaled, d.scale)
  {
    hide Numeral, NatText, ToText, Zeros, IntText, WellFormed, Render, Meaning;
    ToTextParts(d);
    var sign, magnitude := SignOf(d.unscaled), NatText(Magnitude64(d.unscaled));
    NatTextRoundTrip(Magnitude64(d.unscaled));
    if d.scale == 0 {
      x := PlainSyntax(sign, magnitude);
    } else {
      var padded := PaddedText(d);
      PaddedDigits(magnitude, d.scale);
      x := PointedSyntax(sign, padded, d.scale);
    }
  }

  lemma PlainSyntax(sign: string, digits: string) returns (x: Syntax)
    requires IsSign(sign) && AllDigits(digits) && digits != ""
    ensures WellFormed(x) && Meaning(x) == Reading(Signify(sign, Numeral(digits)), 0)
    ensures Render(x) == sign + digits
  {
    hide Numeral, IsSpace;
    x := Syntax("", sign, digits, None, None, "");
    assert digits + "" == digits;
  }

  lemma PlainRender(x: Syntax)
    requires x.before == "" && x.after == "" && x.exponent == None
    ensures Render(x) == x.sign + Body(x)
  {
    hide Body;
    assert "" + Core(x) == Core(x) && Core(x) + "" == Core(x);
    assert x.sign + Body(x) + "" == x.sign + Body(x);
  }

  lemma PointedSyntax(sign: string, digits: string, scale: nat) returns (x: Syntax)
    requires IsSign(sign) && AllDigits(digits) && |digits| > scale
    ensures WellFormed(x) && Meaning(x) == Reading(Signify(sign, Numeral(digits)), scale)
    ensures var point := |digits| - scale; Render(x) == sign + digits[..point] + "." + digits[point..]
  {
    hide Numeral, IsSpace, Render, AllDigits;
    var point := |digits| - scale;
    var whole, fraction := digits[..point], digits[point..];
    x := Syntax("", sign, whole, Some(fraction), None, "");
    assert whole + fraction == digits;
    DigitsSplit(whole, fraction);
    PlainRender(x);
    assert sign + (whole + ("." + fraction)) == sign + whole + "." + fraction;
  }

  lemma NotMinus(digits: string)
    requires digits != "" && AllDigits(digits)
    ensures digits[0] != '-'
  {
  }

  lemma PaddedDigits(digits: string, scale: nat)
    requires AllDigits(digits)
    ensures var p := Filled(digits, scale); AllDigits(p) && Numeral(p) == Numeral(digits)
  {
    hide Numeral;
    if |digits| <= scale {
      var k := scale + 1 - |digits|;
      NumeralConcat(Zeros(k), digits);
      ZerosNumeral(k);
    }
  }

  /** Printing and parsing gives the decimal back, coefficient and scale. */
  lemma DecimalRoundTrip(d: Decimal)
    requires Valid(d)
    ensures Parse(ToText(d)) == Some(d)
  {
    hide Read, WellFormed, Render, Meaning, ToText;
    var x := TextSyntax(d);
    ReadRendered(x);
  }

  /** Parsing, printing and parsing again changes nothing. */
  lemma ParseIdempotent(text: string)
    requires Parse(text).Some?
    ensures Parse(ToText(Parse(text).value)) == Parse(text)
  {
    hide Read, ToText;
    var u := Unscale(Read(text).value);
    FitSound(u.coefficient, u.scale);
    DecimalRoundTrip(Parse(text).value);
  }

  // The imperative surface

  /** `parseDecimalText` with its loops. */
  method ParseDecimalText(text: string) returns (r: Option<Decimal>)
    ensures r == Parse(text)
  {
    hide Read;
    var reading := Read(text);
    if reading == None {
      return None;
    }
    var coefficient, scale := reading.value.coefficient, reading.value.scale;
    if scale < 0 {
      coefficient := coefficient * Pow10(-scale);
      scale := 0;
    }
    while scale > 0 && (scale > 255 || !IsInt64(coefficient))
      invariant scale >= 0
      invariant Fit(coefficient, scale) == Parse(text)
    {
      var quotient := Quotient(coefficient, 10);
      var remainder := coefficient - 10 * quotient;
      QuotientRemainder(coefficient);
      if remainder != 0 {
        return None;
      }
      coefficient := quotient;
      scale := scale - 1;
    }
    if scale > 255 || !IsInt64(coefficient) {
      return None;
    }
    r := Some(Decimal(coefficient, scale));
  }

  /** `QuoRem` by ten: truncation toward zero agrees with flooring when there is no remainder. */
  lemma QuotientRemainder(c: int)
    ensures
      var quotient := Quotient(c, 10);
      (c == 10 * quotient <==> c % 10 == 0) && (c % 10 == 0 ==> quotient == c / 10)
  {
  }

  /** What a driver may hand to `Scan`. */
  datatype Source =
    | Native(d: Decimal)
    | Integer(i: i64)
    | TextValue(text: string)
    | ByteValue(bytes: string)
    | Other

  /** The decimal a source stands for. */
  function Scanned(src: Source): Option<Decimal> {
    match src
    case Native(d) => if Valid(d) then Some(d) else None
    case Integer(i) => Some(Decimal(i, 0))
    case TextValue(text) => Parse(text)
    case ByteValue(bytes) => Parse(bytes)
    case Other => None
  }

  class Destination {
    var d: Decimal

    constructor (initial: Decimal)
      ensures d == initial
    {
      d := initial;
    }

    /** `Decimal.Scan`: the destination changes only on success. */
    method Scan(src: Source) returns (ok: bool)
      modifies this
      ensures ok <==> Scanned(src).Some?
      ensures ok ==> d == Scanned(src).value && Valid(d)
      ensures !ok ==> d == old(d)
    {
      hide Read, Fit, Unscale;
      var next: Option<Decimal> := None;
      match src {
        case Native(value) => next := Some(value);
        case Integer(i) => next := Some(Decimal(i, 0));
        case TextValue(text) => next := ParseDecimalText(text); ParsedValid(text);
        case ByteValue(bytes) => next := ParseDecimalText(bytes); ParsedValid(bytes);
        case Other =>
      }
      ok := next.Some? && Valid(next.value);
      if ok {
        d := next.value;
      }
    }
  }

  lemma ParsedValid(text: string)
    ensures Parse(text).Some? ==> Valid(Parse(text).value)
  {
    hide Read;
    if Read(text).Some? {
      var u := Unscale(Read(text).value);
      FitSound(u.coefficient, u.scale);
    }
  }
}
