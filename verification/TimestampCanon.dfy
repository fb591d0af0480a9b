/**
 The text of a timestamp is canonical: four-digit years or shortest ones, fields in range, and
 no other text of that form names the instant.
 */
module TimestampCanon {
  import opened Calendar
  import opened Machine
  import opened Text
  import opened Timestamp
  import opened Wrappers

  /** Four digits, or more without a zero in front, or a minus sign and digits without a zero in front. */
  predicate CanonicalYear(y: string) {
    if y != "" && y[0] == '-' then |y| >= 2 && AllDigits(y[1..]) && y[1] != '0'
    else AllDigits(y) && (|y| == 4 || (|y| > 4 && y[0] != '0'))
  }

  predicate Canonical(text: string) {
    && |text| >= 24 && CanonicalYear(text[..|text| - 23])
    && var t := text[|text| - 23..];
    && ClockShape(t)
    && Numeral(t[7..9]) < 24 && Numeral(t[10..12]) < 60 && Numeral(t[13..15]) < 60
  }

  // The year

  lemma FourDigits()
    ensures Pow10(4) == 10000
  {
    assert Pow10(2) == 100;
  }

  lemma YearTextCanonical(year: int)
    ensures CanonicalYear(YearText(year))
  {
    hide NatText, Padded, Numeral, Pow10;
    FourDigits();
    if 0 <= year <= 9999 {
      PaddedRoundTrip(year, 4);
      assert !IsDigit('-');
    } else if year > 9999 {
      NatTextShortest(year);
      NatTextLength(year, 4);
      NatTextRoundTrip(year);
    } else {
      NatTextShortest(-year);
      NatTextRoundTrip(-year);
      assert YearText(year)[1..] == NatText(-year);
    }
  }

  lemma YearTextUnique(y: string, year: int)
    requires CanonicalYear(y) && DecodeInt(y) == Some(year)
    ensures y == YearText(year)
  {
    hide NatText, Padded, Numeral, Pow10;
    FourDigits();
    if y[0] == '-' {
      NonzeroNumeral(y[1..]);
      ShortestIsNatText(y[1..]);
      assert !IsDigit(y[0]);
      assert y == "-" + y[1..];
    } else if |y| == 4 {
      NumeralBound(y);
      PaddedRoundTrip(year, 4);
      EqualLengthNumerals(y, Padded(year, 4));
    } else {
      ShortestIsNatText(y);
      NatTextLength(year, 4);
    }
  }

  // The rest

  lemma TwoDigitField(s: string, n: nat)
    requires |s| == 2 && AllDigits(s) && Numeral(s) == n
    ensures s == Padded(n, 2)
  {
    hide Numeral, Padded;
    assert Pow10(2) == 100;
    NumeralBound(s);
    PaddedRoundTrip(n, 2);
    EqualLengthNumerals(s, Padded(n, 2));
  }

  lemma SixDigitField(s: string, n: nat)
    requires |s| == 6 && AllDigits(s) && Numeral(s) == n
    ensures s == Padded(n, 6)
  {
    hide Numeral, Padded, Pow10;
    NumeralBound(s);
    PaddedRoundTrip(n, 6);
    EqualLengthNumerals(s, Padded(n, 6));
  }

  lemma TailUnique(t: string)
    requires ClockShape(t)
    ensures t == Tail(Numeral(t[1..3]), Numeral(t[4..6]), Numeral(t[7..9]), Numeral(t[10..12]),
                      Numeral(t[13..15]), Numeral(t[16..22]))
  {
    hide Numeral, Padded, AllDigits;
    TwoDigitField(t[1..3], Numeral(t[1..3]));
    TwoDigitField(t[4..6], Numeral(t[4..6]));
    TwoDigitField(t[7..9], Numeral(t[7..9]));
    TwoDigitField(t[10..12], Numeral(t[10..12]));
    TwoDigitField(t[13..15], Numeral(t[13..15]));
    SixDigitField(t[16..22], Numeral(t[16..22]));
    assert t == "-" + t[1..3] + "-" + t[4..6] + "T" + t[7..9] + ":" + t[10..12] + ":"
                + t[13..15] + "." + t[16..22] + "Z";
  }

  /** Day and time of day of an instant, from any date and any fields in range. */
  lemma FieldsUnique(micros: int, day: int, h: nat, m: nat, s: nat, f: nat)
    requires h < 24 && m < 60 && s < 60 && f < 1000000
    requires micros == day * DAY + ((h * 60 + m) * 60 + s) * 1000000 + f
    ensures day == micros / DAY
    ensures
      var t := micros % DAY;
      h == t / 3600000000 && m == (t % 3600000000) / 60000000 && s == (t % 60000000) / 1000000 && f == t % 1000000
  {
    var t := ((h * 60 + m) * 60 + s) * 1000000 + f;
    DaySplit(micros, day, t);
    ClockFields(t);
    MixedRadix(h, m, s, f, t / 3600000000, (t % 3600000000) / 60000000, (t % 60000000) / 1000000, t % 1000000);
    MixedRadix(t / 3600000000, (t % 3600000000) / 60000000, (t % 60000000) / 1000000, t % 1000000, h, m, s, f);
  }

  lemma DaySplit(micros: int, day: int, t: int)
    requires micros == day * DAY + t && 0 <= t < DAY
    ensures day == micros / DAY && t == micros % DAY
  {
  }

  lemma TimestampCanonical(micros: int)
    ensures Canonical(TimestampText(micros))
  {
    hide CivilFromDays, YearText, Tail, TimestampText, ClockShape, CanonicalYear;
    TimestampParts(micros);
    var d, t := CivilFromDays(micros / DAY), micros % DAY;
    ClockFields(t);
    var h, m, s, f := t / 3600000000, (t % 3600000000) / 60000000, (t % 60000000) / 1000000, t % 1000000;
    TailDecodes(d.month, d.day, h, m, s, f);
    var tail := Tail(d.month, d.day, h, m, s, f);
    YearDecodes(d.year);
    YearTextCanonical(d.year);
    ShapeLength(tail);
    var text := TimestampText(micros);
    assert text[|text| - 23..] == tail && text[..|text| - 23] == YearText(d.year);
  }

  /** The text of a timestamp is the one canonical text that names the instant. */
  lemma TimestampUnique(micros: int, text: string)
    ensures text == TimestampText(micros) <==> Canonical(text) && Decode(text) == Some(micros)
  {
    hide Canonical, Decode, TimestampText;
    TimestampCanonical(micros);
    TimestampRoundTrip(micros);
    if Canonical(text) && Decode(text) == Some(micros) {
      CanonicalIsText(micros, text);
    }
  }

  lemma CanonicalIsText(micros: int, text: string)
    requires Canonical(text) && Decode(text) == Some(micros)
    ensures text == TimestampText(micros)
  {
    hide CivilFromDays, YearText, Tail, TimestampText, ClockShape, CanonicalYear, DecodeInt, DayNumber, Numeral,
      ValidDate;
    var y, t := text[..|text| - 23], text[|text| - 23..];
    assert text == y + t;
    ShapeLength(t);
    var date := Date(DecodeInt(y).value, Numeral(t[1..3]), Numeral(t[4..6]));
    var h, m, s, f := Numeral(t[7..9]), Numeral(t[10..12]), Numeral(t[13..15]), Numeral(t[16..22]);
    SixDigits(t);
    FieldsUnique(micros, DayNumber(date), h, m, s, f);
    CivilInverse(date);
    TimestampParts(micros);
    YearTextUnique(y, date.year);
    TailUnique(t);
  }

  lemma SixDigits(t: string)
    requires ClockShape(t)
    ensures Numeral(t[16..22]) < 1000000
  {
    hide Numeral;
    NumeralBound(t[16..22]);
    assert Pow10(3) == 1000;
    assert Pow10(6) == 1000000;
  }
}
