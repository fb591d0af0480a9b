/**
 Numerals, as the C, Go and Rust formatters print them.
 */
module Text {

  function DigitChar(d: nat): char
    requires d < 10
  {
    '0' + d as char
  }

  predicate IsDigit(c: char) {
    '0' <= c <= '9'
  }

  function DigitValue(c: char): nat {
    if IsDigit(c) then (c - '0') as nat else 0
  }

  predicate AllDigits(s: string) {
    forall i | 0 <= i < |s| :: IsDigit(s[i])
  }

  /** The number a digit string denotes, most significant digit first. */
  function Numeral(s: string): nat {
    if s == [] then 0 else 10 * Numeral(s[..|s| - 1]) + DigitValue(s[|s| - 1])
  }

  lemma NumeralSnoc(s: string, c: char)
    ensures Numeral(s + [c]) == 10 * Numeral(s) + DigitValue(c)
  {
    assert (s + [c])[..|s|] == s;
  }

  function Pow10(k: nat): (p: nat)
    ensures p >= 1
  {
    if k == 0 then 1 else 10 * Pow10(k - 1)
  }

  lemma {:induction false} NumeralBound(s: string)
    ensures Numeral(s) < Pow10(|s|)
  {
    if s == [] {
    } else {
      NumeralBound(s[..|s| - 1]);
    }
  }

  lemma {:induction false} EqualLengthNumerals(s: string, t: string)
    requires |s| == |t| && AllDigits(s) && AllDigits(t) && Numeral(s) == Numeral(t)
    ensures s == t
  {
    if s == [] {
    } else {
      var k := |s| - 1;
      assert s == s[..k] + [s[k]] && t == t[..k] + [t[k]];
      EqualLengthNumerals(s[..k], t[..k]);
    }
  }

  lemma {:induction false} NumeralConcat(s: string, t: string)
    ensures Numeral(s + t) == Numeral(s) * Pow10(|t|) + Numeral(t)
  {
    if t == [] {
      assert s + t == s;
    } else {
      var t', c := t[..|t| - 1], t[|t| - 1];
      assert s + t == (s + t') + [c] && t == t' + [c];
      var a, b, p := Numeral(s), Numeral(t'), Pow10(|t'|);
      calc {
        Numeral(s + t);
        { NumeralSnoc(s + t', c); }
        10 * Numeral(s + t') + DigitValue(c);
        { NumeralConcat(s, t'); }
        10 * (a * p + b) + DigitValue(c);
        { assert a * (10 * p) == 10 * (a * p); }
        a * (10 * p) + (10 * b + DigitValue(c));
      }
    }
  }

  /** The shortest numeral of `n`. */
  function NatText(n: nat): (s: string)
    ensures s != []
  {
    if n < 10 then [DigitChar(n)] else NatText(n / 10) + [DigitChar(n % 10)]
  }

  lemma {:induction false} NatTextRoundTrip(n: nat)
    ensures AllDigits(NatText(n))
    ensures Numeral(NatText(n)) == n
  {
    if n < 10 {
      NumeralSnoc([], DigitChar(n));
      assert [] + [DigitChar(n)] == [DigitChar(n)];
    } else {
      NatTextRoundTrip(n / 10);
      NumeralSnoc(NatText(n / 10), DigitChar(n % 10));
    }
  }

  /** A numeral without needless zeros in front. */
  predicate Shortest(s: string) {
    s != "" && AllDigits(s) && (s == "0" || s[0] != '0')
  }

  /** `NatText` writes exactly the numerals without needless zeros. */
  lemma {:induction false} ShortestIsNatText(s: string)
    requires Shortest(s)
    ensures s == NatText(Numeral(s))
  {
    hide NatText;
    var k := |s| - 1;
    assert s == s[..k] + [s[k]];
    if k == 0 {
      assert Numeral(s[..0]) == 0;
      NatTextDigit(Numeral(s[..0]), s[k]);
    } else {
      ShortestIsNatText(s[..k]);
      NonzeroNumeral(s[..k]);
      NatTextDigit(Numeral(s[..k]), s[k]);
    }
  }

  lemma NatTextDigit(n: nat, c: char)
    requires IsDigit(c)
    ensures NatText(10 * n + DigitValue(c)) == (if n == 0 then [] else NatText(n)) + [c]
  {
    assert (10 * n + DigitValue(c)) / 10 == n;
  }

  lemma {:induction false} NonzeroNumeral(s: string)
    requires s != "" && AllDigits(s) && s[0] != '0'
    ensures Numeral(s) >= 1
  {
    var k := |s| - 1;
    if k == 0 {
    } else {
      NonzeroNumeral(s[..k]);
    }
  }

  lemma {:induction false} NatTextShortest(n: nat)
    ensures Shortest(NatText(n))
    ensures n > 0 ==> NatText(n)[0] != '0'
  {
    if n < 10 {
    } else {
      NatTextShortest(n / 10);
    }
  }

  /** A signed numeral: `%lld` and `strconv.FormatInt`. */
  function IntText(n: int): string {
    if n < 0 then "-" + NatText(-n) else NatText(n)
  }

  /** A numeral has at most k digits exactly when its number is below 10^k. */
  lemma {:induction false} NatTextLength(n: nat, k: nat)
    requires k >= 1
    ensures |NatText(n)| <= k <==> n < Pow10(k)
  {
    if k == 1 {
      assert Pow10(1) == 10;
    } else if n >= 10 {
      NatTextLength(n / 10, k - 1);
    } else {
      assert Pow10(k) == 10 * Pow10(k - 1);
    }
  }

  function Zeros(k: nat): (s: string)
    ensures |s| == k && forall i | 0 <= i < k :: s[i] == '0'
  {
    seq(k, i => '0')
  }

  lemma {:induction false} ZerosNumeral(k: nat)
    ensures Numeral(Zeros(k)) == 0
  {
    if k == 0 {
    } else {
      assert Zeros(k)[..k - 1] == Zeros(k - 1);
      ZerosNumeral(k - 1);
    }
  }

  /** `n` left-padded with zeros to at least `width` characters: `%0<width>lld` on n >= 0. */
  function Padded(n: nat, width: nat): (s: string)
    ensures |s| >= width
  {
    var t := NatText(n);
    if |t| >= width then t else Zeros(width - |t|) + t
  }

  lemma PaddedRoundTrip(n: nat, width: nat)
    ensures AllDigits(Padded(n, width)) && Numeral(Padded(n, width)) == n
    ensures width >= 1 && n < Pow10(width) ==> |Padded(n, width)| == width
  {
    hide NatText, Numeral, Pow10;
    NatTextRoundTrip(n);
    var t := NatText(n);
    if width >= 1 {
      NatTextLength(n, width);
    }
    if |t| < width {
      NumeralConcat(Zeros(width - |t|), t);
      ZerosNumeral(width - |t|);
    }
  }

  // Hexadecimal

  function HexChar(d: nat): char
    requires d < 16
  {
    if d < 10 then '0' + d as char else 'a' + (d - 10) as char
  }

  lemma HexCharIs(d: nat)
    requires d < 16
    ensures HexChar(d) == "0123456789abcdef"[d]
  {
  }

  predicate IsHex(c: char) {
    '0' <= c <= '9' || 'a' <= c <= 'f' || 'A' <= c <= 'F'
  }

  function HexValue(c: char): nat {
    if '0' <= c <= '9' then (c - '0') as nat
    else if 'a' <= c <= 'f' then (c - 'a') as nat + 10
    else if 'A' <= c <= 'F' then (c - 'A') as nat + 10
    else 0
  }

  /** `%x`. */
  function HexText(n: nat): (s: string)
    ensures s != []
  {
    if n < 16 then [HexChar(n)] else HexText(n / 16) + [HexChar(n % 16)]
  }

  function HexNumeral(s: string): nat {
    if s == [] then 0 else 16 * HexNumeral(s[..|s| - 1]) + HexValue(s[|s| - 1])
  }

  lemma {:induction false} HexTextRoundTrip(n: nat)
    ensures forall i | 0 <= i < |HexText(n)| :: IsHex(HexText(n)[i])
    ensures HexNumeral(HexText(n)) == n
  {
    var s := HexText(n);
    if n < 16 {
      assert s[..0] == [];
    } else {
      HexTextRoundTrip(n / 16);
      assert s[..|s| - 1] == HexText(n / 16);
    }
  }

  lemma HexTextLength(n: nat)
    requires n < 0x10000
    ensures |HexText(n)| <= 4
  {
    assert n / 16 < 0x1000 && n / 16 / 16 < 0x100 && n / 16 / 16 / 16 < 0x10;
    assert |HexText(n / 16 / 16 / 16)| == 1;
    assert |HexText(n / 16 / 16)| <= 2;
    assert |HexText(n / 16)| <= 3;
  }
}
