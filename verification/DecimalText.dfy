/**
 The text of a decimal is canonical: it keeps a short list of rules, and it is the only text
 keeping them that the parser reads as that decimal.
 */
module DecimalText {
  import opened Machine
  import opened Text
  import opened Wrappers
  import opened Decimals

  /** The rules, with the digits before and after the point named. */
  predicate CanonicalParts(text: string, negative: bool, scale: nat, whole: string, fraction: string) {
    && text == (if negative then "-" else "") + whole + (if scale == 0 then "" else "." + fraction)
    && whole != "" && AllDigits(whole) && (whole == "0" || whole[0] != '0')
    && |fraction| == scale && AllDigits(fraction)
  }

  /**
   A minus sign exactly for negative numbers and no other sign, no space and no exponent; a
   point exactly with a positive scale, that many digits after it; no needless zero in front.
   */
  ghost predicate Canonical(text: string, negative: bool, scale: nat) {
    exists whole, fraction :: CanonicalParts(text, negative, scale, whole, fraction)
  }

  // The printer keeps the rules

  lemma FilledParts(digits: string, scale: nat)
    requires Shortest(digits)
    ensures
      var padded := Filled(digits, scale);
      var point := |padded| - scale;
      && AllDigits(padded[..point]) && AllDigits(padded[point..])
      && padded[..point] != "" && (padded[..point] == "0" || padded[..point][0] != '0')
  {
    var padded := Filled(digits, scale);
    var point := |padded| - scale;
    if |digits| <= scale {
      assert padded[..point] == "0";
    } else {
      assert padded[..point][0] == digits[0];
    }
  }

  lemma PrintedCanonical(d: Decimal)
    requires Valid(d)
    ensures Canonical(ToText(d), d.unscaled < 0, d.scale)
  {
    hide ToText, NatText, Filled;
    ToTextParts(d);
    var digits := NatText(Magnitude64(d.unscaled));
    NatTextShortest(Magnitude64(d.unscaled));
    if d.scale == 0 {
      assert CanonicalParts(ToText(d), d.unscaled < 0, d.scale, digits, "");
    } else {
      FilledParts(digits, d.scale);
      var padded := PaddedText(d);
      var point := |padded| - d.scale;
      assert ToText(d) == SignOf(d.unscaled) + padded[..point] + ("." + padded[point..]);
      assert CanonicalParts(ToText(d), d.unscaled < 0, d.scale, padded[..point], padded[point..]);
    }
  }

  // Nothing else keeps them

  lemma PlainRead(sign: string, whole: string)
    requires IsSign(sign) && whole != "" && AllDigits(whole)
    ensures Read(sign + whole) == Some(Reading(Signify(sign, Numeral(whole)), 0))
  {
    hide Numeral, Read, WellFormed, Render, Meaning;
    var x := PlainSyntax(sign, whole);
    ReadRendered(x);
  }

  lemma PointedRead(sign: string, whole: string, fraction: string)
    requires IsSign(sign) && whole != "" && AllDigits(whole) && AllDigits(fraction)
    ensures Read(sign + whole + "." + fraction)
            == Some(Reading(Signify(sign, Numeral(whole + fraction)), |fraction|))
  {
    hide Numeral, Read, WellFormed, Render, Meaning;
    var digits := whole + fraction;
    var x := PointedSyntax(sign, digits, |fraction|);
    ReadRendered(x);
    assert digits[..|whole|] == whole && digits[|whole|..] == fraction;
  }

  /** What the parser makes of a canonical text. */
  lemma CanonicalRead(text: string, negative: bool, scale: nat, whole: string, fraction: string)
    requires CanonicalParts(text, negative, scale, whole, fraction)
    ensures Read(text) == Some(Reading(Signify(if negative then "-" else "", Numeral(whole + fraction)), scale))
  {
    hide Numeral, Read, AllDigits;
    var sign := if negative then "-" else "";
    if scale == 0 {
      PlainRead(sign, whole);
      assert sign + whole + "" == sign + whole && whole + fraction == whole;
    } else {
      PointedRead(sign, whole, fraction);
      assert sign + whole + ("." + fraction) == sign + whole + "." + fraction;
    }
  }

  lemma SameDigits(whole: string, fraction: string, other: string, otherFraction: string)
    requires Shortest(whole) && Shortest(other) && AllDigits(fraction) && AllDigits(otherFraction)
    requires |fraction| == |otherFraction| && Numeral(whole + fraction) == Numeral(other + otherFraction)
    ensures whole == other && fraction == otherFraction
  {
    hide Numeral, NatText, Pow10;
    NumeralConcat(whole, fraction);
    NumeralConcat(other, otherFraction);
    NumeralBound(fraction);
    NumeralBound(otherFraction);
    SameParts(Numeral(whole), Numeral(fraction), Numeral(other), Numeral(otherFraction), Pow10(|fraction|));
    EqualLengthNumerals(fraction, otherFraction);
    ShortestIsNatText(whole);
    ShortestIsNatText(other);
  }

  lemma SameParts(a: nat, b: nat, c: nat, d: nat, p: nat)
    requires b < p && d < p && a * p + b == c * p + d
    ensures a == c && b == d
  {
    assert (a - c) * p == a * p - c * p;
    MultipleBound(a - c, p);
  }

  lemma MultipleBound(k: int, p: int)
    requires p >= 0
    ensures k > 0 ==> k * p >= p
    ensures k < 0 ==> k * p <= -p
  {
    if k > 0 {
      assert (k - 1) * p >= 0;
    } else if k < 0 {
      assert (-1 - k) * p >= 0;
    }
  }

  lemma ParsedDigits(d: Decimal, text: string, whole: string, fraction: string)
    requires Valid(d) && CanonicalParts(text, d.unscaled < 0, d.scale, whole, fraction)
    ensures Parse(text) == Some(d) <==> Numeral(whole + fraction) == Magnitude64(d.unscaled)
  {
    hide Read, Numeral, CanonicalParts;
    CanonicalRead(text, d.unscaled < 0, d.scale, whole, fraction);
    var n := Numeral(whole + fraction);
    var c := Signify(if d.unscaled < 0 then "-" else "", n);
    FitSound(c, d.scale);
    TenTimes(d.unscaled, 0);
  }

  /**
   The printed text is the one canonical text that is read back as the decimal, and a decimal
   whose scale is out of range prints as a fixed marker.
   */
  lemma PrintedUnique(d: Decimal, text: string)
    ensures Valid(d) ==> (text == ToText(d) <==> Canonical(text, d.unscaled < 0, d.scale) && Parse(text) == Some(d))
    ensures !Valid(d) ==> ToText(d) == "<invalid decimal>"
  {
    hide CanonicalParts, Parse, Numeral;
    if Valid(d) {
      PrintedCanonical(d);
      DecimalRoundTrip(d);
      var w, f :| CanonicalParts(ToText(d), d.unscaled < 0, d.scale, w, f);
      ParsedDigits(d, ToText(d), w, f);
      if Canonical(text, d.unscaled < 0, d.scale) && Parse(text) == Some(d) {
        var whole, fraction :| CanonicalParts(text, d.unscaled < 0, d.scale, whole, fraction);
        ParsedDigits(d, text, whole, fraction);
        SameText(ToText(d), text, d.unscaled < 0, d.scale, w, f, whole, fraction);
      }
    }
  }

  lemma SameText(a: string, b: string, negative: bool, scale: nat,
                 w: string, f: string, whole: string, fraction: string)
    requires CanonicalParts(a, negative, scale, w, f) && CanonicalParts(b, negative, scale, whole, fraction)
    requires Numeral(w + f) == Numeral(whole + fraction)
    ensures a == b
  {
    hide Numeral;
    SameDigits(w, f, whole, fraction);
  }

  /** The characters the grammar knows: digits, exponent markers, and white space as Unicode lists it. */
  lemma Alphabet(c: char)
    ensures IsDigit(c) <==> c in "0123456789"
    ensures IsMarker(c) <==> c in "eE"
    ensures IsSpace(c) <==>
              var n := c as int;
              || 9 <= n <= 13 || n == 32 || n == 133 || n == 160 || n == 5760 || 8192 <= n <= 8202
              || n == 8232 || n == 8233 || n == 8239 || n == 8287 || n == 12288
  {
  }

  /** A printed decimal is scanned back from text and from bytes, and an integer as its own numeral. */
  lemma ScanPrinted(d: Decimal, i: i64)
    ensures Valid(d) ==>
              && Scanned(Native(d)) == Some(d)
              && Scanned(TextValue(ToText(d))) == Some(d) && Scanned(ByteValue(ToText(d))) == Some(d)
    ensures !Valid(d) ==> Scanned(Native(d)) == None
    ensures Scanned(Integer(i)).Some? && ToText(Scanned(Integer(i)).value) == IntText(i)
    ensures Scanned(Other) == None
  {
    hide Parse, IntText;
    if Valid(d) {
      DecimalRoundTrip(d);
    }
  }
}
