/**
 Dates, times and timestamps as text: `format_year`, `format_date_days`,
 `format_time_of_day` and `format_timestamp_tz_micros` of the JNI bridge.
 */
module Timestamp {
  import opened Calendar
  import opened Machine
  import opened Text
  import opened Wrappers

  const DAY: int := 86400000000

  /** What `snprintf` leaves in a buffer of the given size. */
  function Printed(text: string, size: nat): string {
    if |text| < size then text else if size == 0 then "" else text[..size - 1]
  }

  function YearText(year: int): string {
    if 0 <= year <= 9999 then Padded(year, 4) else IntText(year)
  }

  /** `%02lld` on the months and days a calendar yields. */
  function TwoDigits(n: int): string {
    if n >= 0 then Padded(n, 2) else IntText(n)
  }

  function DateText(d: Date): string {
    YearText(d.year) + "-" + TwoDigits(d.month) + "-" + TwoDigits(d.day)
  }

  function TimeText(micros: nat): string {
    var hour := micros / 3600000000;
    var minute := (micros % 3600000000) / 60000000;
    var second := (micros % 60000000) / 1000000;
    var fraction := micros % 1000000;
    Padded(hour, 2) + ":" + Padded(minute, 2) + ":" + Padded(second, 2) + "." + Padded(fraction, 6)
  }

  /** The day and the time of day, as the C code splits them: truncating division, then a correction. */
  function SplitDay(micros: int): (int, int) {
    var days := Quotient(micros, DAY);
    var time := micros - days * DAY;
    if time < 0 then (days - 1, time + DAY) else (days, time)
  }

  /** `format_date_days` into a buffer of `size` bytes, through a buffer for the year. */
  function FormatDate(days: int, size: nat): string {
    var d := CivilFromDays(days);
    Printed(Printed(YearText(d.year), 32) + "-" + TwoDigits(d.month) + "-" + TwoDigits(d.day), size)
  }

  /** `format_timestamp_tz_micros` into a buffer of `size` bytes. */
  function FormatTimestamp(micros: i64, size: nat): string {
    SplitIsFloor(micros);
    var (days, time) := SplitDay(micros);
    var date := FormatDate(AsI32(days), 32);
    var clock := Printed(TimeText(time), 32);
    Printed(date + "T" + clock + "Z", size)
  }

  /** The split is floor division: the remainder is a time of day, also before 1970. */
  lemma SplitIsFloor(micros: int)
    ensures
      var (days, time) := SplitDay(micros);
      days == micros / DAY && time == micros % DAY && 0 <= time < DAY && micros == days * DAY + time
  {
  }

  /** The untruncated text, with no narrowing of the day. */
  function TimestampText(micros: int): string {
    DateText(CivilFromDays(micros / DAY)) + "T" + TimeText(micros % DAY) + "Z"
  }

  // Nothing is truncated

  lemma YearOfTimestamp(micros: i64)
    ensures -1000000 < CivilFromDays(micros / DAY).year < 1000000
    ensures -0x8000_0000 <= micros / DAY < 0x8000_0000
  {
    hide CivilFromDays, DayNumber, ValidDate;
    var days := micros / DAY;
    assert -106751992 <= days <= 106751991;
    var d := CivilFromDays(days);
    CivilCorrect(days);
    DayOfYearRange(d);
    LeapsBounded(d.year - 1);
    LeapsBounded(d.year);
  }

  lemma YearTextLength(year: int)
    requires -1000000 < year < 1000000
    ensures |YearText(year)| <= 7
  {
    hide NatText, Padded;
    assert Pow10(6) == 1000000 by {
      assert Pow10(3) == 1000;
    }
    NatTextLength(if year < 0 then -year else year, 6);
    if 0 <= year <= 9999 {
      PaddedLength(year, 4);
    }
  }

  /** The two-digit and six-digit fields have their width. */
  lemma PaddedLength(n: nat, width: nat)
    requires (width == 2 && n < 100) || (width == 4 && n < 10000) || (width == 6 && n < 1000000)
    ensures |Padded(n, width)| == width && n < Pow10(width)
  {
    hide Padded;
    assert Pow10(2) == 100 && Pow10(3) == 1000 && Pow10(4) == 10000;
    assert Pow10(5) == 100000 && Pow10(6) == 1000000;
    PaddedRoundTrip(n, width);
  }

  lemma DateTextLength(d: Date)
    requires ValidDate(d)
    ensures |DateText(d)| == |YearText(d.year)| + 6
  {
    hide YearText, Padded;
    PaddedLength(d.month, 2);
    PaddedLength(d.day, 2);
  }

  lemma ClockFields(micros: int)
    requires 0 <= micros < DAY
    ensures
      && 0 <= micros / 3600000000 < 24 && 0 <= (micros % 3600000000) / 60000000 < 60
      && 0 <= (micros % 60000000) / 1000000 < 60 && 0 <= micros % 1000000 < 1000000
    ensures
      micros == (((micros / 3600000000) * 60 + (micros % 3600000000) / 60000000) * 60
                 + (micros % 60000000) / 1000000) * 1000000 + micros % 1000000
  {
    var h, r := micros / 3600000000, micros % 3600000000;
    var m, r' := r / 60000000, r % 60000000;
    assert micros == 60000000 * (60 * h + m) + r';
    assert micros % 60000000 == r';
    var s, f := r' / 1000000, r' % 1000000;
    assert micros == 1000000 * (60 * (60 * h + m) + s) + f;
    assert micros % 1000000 == f;
  }

  lemma TimeTextLength(micros: int)
    requires 0 <= micros < DAY
    ensures |TimeText(micros)| == 15
  {
    hide Padded;
    ClockFields(micros);
    PaddedLength(micros / 3600000000, 2);
    PaddedLength((micros % 3600000000) / 60000000, 2);
    PaddedLength((micros % 60000000) / 1000000, 2);
    PaddedLength(micros % 1000000, 6);
  }

  lemma FormatDateFits(days: int, size: nat)
    requires -1000000 < CivilFromDays(days).year < 1000000 && size >= 14
    ensures FormatDate(days, size) == DateText(CivilFromDays(days)) && |DateText(CivilFromDays(days))| <= 13
  {
    hide CivilFromDays, YearText, TwoDigits, ValidDate;
    CivilCorrect(days);
    YearTextLength(CivilFromDays(days).year);
    DateTextLength(CivilFromDays(days));
  }

  /**
   For every 64-bit timestamp the narrowing of the day loses nothing and the inner buffers hold
   their parts: a buffer of `size` bytes gets the text, or what fits of it with its terminator.
   */
  lemma TimestampFits(micros: i64, size: nat)
    ensures
      var text, room := TimestampText(micros), if size == 0 then 0 else size - 1;
      && |text| <= 30
      && FormatTimestamp(micros, size) == if |text| <= room then text else text[..room]
    ensures size >= 31 ==> FormatTimestamp(micros, size) == TimestampText(micros)
  {
    hide CivilFromDays, DateText, FormatDate, TimeText, ValidDate, SplitDay;
    SplitIsFloor(micros);
    var days, time := micros / DAY, micros % DAY;
    YearOfTimestamp(micros);
    assert AsI32(days) == days;
    FormatDateFits(days, 32);
    TimeTextLength(time);
  }

  // Reading a timestamp back

  function DecodeInt(s: string): Option<int> {
    if s != "" && AllDigits(s) then Some(Numeral(s))
    else if |s| > 1 && s[0] == '-' && AllDigits(s[1..]) then Some(-(Numeral(s[1..]) as int))
    else None
  }

  /** The positions of the punctuation after the year, and digits everywhere else. */
  predicate ClockShape(t: string) {
    && |t| == 23
    && t[0] == '-' && t[3] == '-' && t[6] == 'T' && t[9] == ':' && t[12] == ':' && t[15] == '.' && t[22] == 'Z'
    && AllDigits(t[1..3]) && AllDigits(t[4..6]) && AllDigits(t[7..9]) && AllDigits(t[10..12])
    && AllDigits(t[13..15]) && AllDigits(t[16..22])
  }

  /** The instant a text `<year>-MM-DDThh:mm:ss.ffffffZ` names, in microseconds from 1970. */
  function Decode(text: string): Option<int> {
    if |text| < 24 then None else
      var t := text[|text| - 23..];
      var year := DecodeInt(text[..|text| - 23]);
      if year.None? || !ClockShape(t) then None else
        var date := Date(year.value, Numeral(t[1..3]), Numeral(t[4..6]));
        if !ValidDate(date) then None else
          var clock := (Numeral(t[7..9]) * 60 + Numeral(t[10..12])) * 60 + Numeral(t[13..15]);
          Some(DayNumber(date) * DAY + clock * 1000000 + Numeral(t[16..22]))
  }

  lemma YearDecodes(year: int)
    ensures YearText(year) != "" && DecodeInt(YearText(year)) == Some(year)
  {
    hide NatText, Numeral, Padded;
    if 0 <= year <= 9999 {
      PaddedRoundTrip(year, 4);
    } else if year >= 0 {
      NatTextRoundTrip(year);
    } else {
      NatTextRoundTrip(-year);
      assert IntText(year)[1..] == NatText(-year);
      assert !IsDigit(IntText(year)[0]);
    }
  }

  /** The fixed-width part of a timestamp. */
  function Tail(month: nat, day: nat, h: nat, m: nat, s: nat, f: nat): string {
    "-" + Padded(month, 2) + "-" + Padded(day, 2) + "T" + Padded(h, 2) + ":" + Padded(m, 2) + ":"
    + Padded(s, 2) + "." + Padded(f, 6) + "Z"
  }

  lemma TailDecodes(month: nat, day: nat, h: nat, m: nat, s: nat, f: nat)
    requires month < 100 && day < 100 && h < 100 && m < 100 && s < 100 && f < 1000000
    ensures
      var t := Tail(month, day, h, m, s, f);
      && ClockShape(t)
      && Numeral(t[1..3]) == month && Numeral(t[4..6]) == day && Numeral(t[7..9]) == h
      && Numeral(t[10..12]) == m && Numeral(t[13..15]) == s && Numeral(t[16..22]) == f
  {
    hide Padded, Numeral;
    PaddedLength(month, 2);
    PaddedLength(day, 2);
    PaddedLength(h, 2);
    PaddedLength(m, 2);
    PaddedLength(s, 2);
    PaddedLength(f, 6);
    var t := Tail(month, day, h, m, s, f);
    assert t[1..3] == Padded(month, 2) && t[4..6] == Padded(day, 2) && t[7..9] == Padded(h, 2);
    assert t[10..12] == Padded(m, 2) && t[13..15] == Padded(s, 2) && t[16..22] == Padded(f, 6);
    PaddedRoundTrip(month, 2);
    PaddedRoundTrip(day, 2);
    PaddedRoundTrip(h, 2);
    PaddedRoundTrip(m, 2);
    PaddedRoundTrip(s, 2);
    PaddedRoundTrip(f, 6);
  }

  lemma TimestampParts(micros: int)
    ensures
      var d, t := CivilFromDays(micros / DAY), micros % DAY;
      && ValidDate(d)
      && TimestampText(micros) == YearText(d.year) +
           Tail(d.month, d.day, t / 3600000000, (t % 3600000000) / 60000000, (t % 60000000) / 1000000, t % 1000000)
  {
    hide CivilFromDays, YearText, Padded;
    CivilCorrect(micros / DAY);
  }

  /** The text of every timestamp decodes to the timestamp. */
  lemma TimestampRoundTrip(micros: int)
    ensures Decode(TimestampText(micros)) == Some(micros)
  {
    hide CivilFromDays, YearText, Tail, TimestampText, DecodeInt, ClockShape, DayNumber;
    TimestampParts(micros);
    CivilCorrect(micros / DAY);
    var d, t := CivilFromDays(micros / DAY), micros % DAY;
    ClockFields(t);
    var h, m, s, f := t / 3600000000, (t % 3600000000) / 60000000, (t % 60000000) / 1000000, t % 1000000;
    TailDecodes(d.month, d.day, h, m, s, f);
    var tail := Tail(d.month, d.day, h, m, s, f);
    YearDecodes(d.year);
    var text := TimestampText(micros);
    assert |tail| == 23 by { ShapeLength(tail); }
    assert text[|text| - 23..] == tail && text[..|text| - 23] == YearText(d.year);
  }

  lemma ShapeLength(t: string)
    requires ClockShape(t)
    ensures |t| == 23
  {
  }

  // Order

  /** Lexicographic order of texts. */
  predicate LexLess(a: string, b: string) {
    b != "" && (a == "" || a[0] < b[0] || (a[0] == b[0] && LexLess(a[1..], b[1..])))
  }

  lemma {:induction false} LexConcat(a: string, x: string, b: string, y: string)
    requires |a| == |b|
    ensures LexLess(a + x, b + y) <==> LexLess(a, b) || (a == b && LexLess(x, y))
  {
    if a == "" {
      assert a + x == x && b + y == y;
    } else {
      assert (a + x)[1..] == a[1..] + x && (b + y)[1..] == b[1..] + y;
      LexConcat(a[1..], x, b[1..], y);
      assert a == [a[0]] + a[1..] && b == [b[0]] + b[1..];
    }
  }

  /** Digit strings of one length are ordered as their numbers are. */
  lemma {:induction false} LexDigits(a: string, b: string)
    requires |a| == |b| && AllDigits(a) && AllDigits(b)
    ensures LexLess(a, b) <==> Numeral(a) < Numeral(b)
    ensures a == b <==> Numeral(a) == Numeral(b)
  {
    if a == "" {
    } else {
      var k := |a| - 1;
      assert a == a[..k] + [a[k]] && b == b[..k] + [b[k]];
      LexDigits(a[..k], b[..k]);
      LexConcat(a[..k], [a[k]], b[..k], [b[k]]);
      LexChar(a[k], b[k]);
    }
  }

  lemma LexChar(c: char, d: char)
    requires IsDigit(c) && IsDigit(d)
    ensures LexLess([c], [d]) <==> DigitValue(c) < DigitValue(d)
    ensures c == d <==> DigitValue(c) == DigitValue(d)
  {
    assert [c][1..] == "" && [d][1..] == "";
  }

  /** Texts that start with a fixed-width field and a separator compare by the field first. */
  lemma LexField(m: nat, n: nat, width: nat, sep: char, x: string, y: string)
    requires |Padded(m, width)| == width && |Padded(n, width)| == width
    ensures LexLess(Padded(m, width) + [sep] + x, Padded(n, width) + [sep] + y) <==> m < n || (m == n && LexLess(x, y))
  {
    hide Padded, Numeral, LexLess;
    PaddedRoundTrip(m, width);
    PaddedRoundTrip(n, width);
    LexDigits(Padded(m, width), Padded(n, width));
    assert Padded(m, width) + [sep] + x == Padded(m, width) + ([sep] + x);
    assert Padded(n, width) + [sep] + y == Padded(n, width) + ([sep] + y);
    LexConcat(Padded(m, width), [sep] + x, Padded(n, width), [sep] + y);
    LexSame(sep, x, y);
  }

  lemma LexSame(c: char, x: string, y: string)
    ensures LexLess([c] + x, [c] + y) <==> LexLess(x, y)
  {
    assert ([c] + x)[1..] == x && ([c] + y)[1..] == y;
  }

  /** A time of day as three fields, from the hour on. */
  function ClockTail(t: int): string
    requires 0 <= t < DAY
  {
    ClockFields(t);
    Padded(t / 3600000000, 2) + [':'] + (Padded((t % 3600000000) / 60000000, 2) + [':']
      + (Padded((t % 60000000) / 1000000, 2) + ['.'] + (Padded(t % 1000000, 6) + ['Z'] + "")))
  }

  lemma ClockOrder(t: int, u: int)
    requires 0 <= t < DAY && 0 <= u < DAY
    ensures LexLess(ClockTail(t), ClockTail(u)) <==> t < u
  {
    hide Padded, LexLess;
    ClockFields(t);
    ClockFields(u);
    var h, m, s, f := t / 3600000000, (t % 3600000000) / 60000000, (t % 60000000) / 1000000, t % 1000000;
    var h', m', s', f' := u / 3600000000, (u % 3600000000) / 60000000, (u % 60000000) / 1000000, u % 1000000;
    var z, z' := Padded(f, 6) + ['Z'] + "", Padded(f', 6) + ['Z'] + "";
    var y, y' := Padded(s, 2) + ['.'] + z, Padded(s', 2) + ['.'] + z';
    var x, x' := Padded(m, 2) + [':'] + y, Padded(m', 2) + [':'] + y';
    WidthsFit(h, m, s, f);
    WidthsFit(h', m', s', f');
    LexEmpty();
    LexField(f, f', 6, 'Z', "", "");
    LexField(s, s', 2, '.', z, z');
    LexField(m, m', 2, ':', y, y');
    LexField(h, h', 2, ':', x, x');
    MixedRadix(h, m, s, f, h', m', s', f');
  }

  lemma LexEmpty()
    ensures !LexLess("", "")
  {
  }

  lemma WidthsFit(a: nat, b: nat, c: nat, f: nat)
    requires a < 100 && b < 100 && c < 100 && f < 1000000
    ensures |Padded(a, 2)| == 2 && |Padded(b, 2)| == 2 && |Padded(c, 2)| == 2 && |Padded(f, 6)| == 6
  {
    hide Padded;
    PaddedLength(a, 2);
    PaddedLength(b, 2);
    PaddedLength(c, 2);
    PaddedLength(f, 6);
  }

  /** Mixed-radix numbers compare field by field. */
  lemma MixedRadix(h: nat, m: nat, s: nat, f: nat, h': nat, m': nat, s': nat, f': nat)
    requires m < 60 && s < 60 && f < 1000000 && m' < 60 && s' < 60 && f' < 1000000
    ensures ((h * 60 + m) * 60 + s) * 1000000 + f < ((h' * 60 + m') * 60 + s') * 1000000 + f'
            <==> h < h' || (h == h' && (m < m' || (m == m' && (s < s' || (s == s' && f < f')))))
  {
  }

  lemma TimestampFields(micros: int)
    requires 0 <= CivilFromDays(micros / DAY).year <= 9999
    ensures
      var d := CivilFromDays(micros / DAY);
      && ValidDate(d)
      && TimestampText(micros) ==
           Padded(d.year, 4) + ['-']
           + (Padded(d.month, 2) + ['-'] + (Padded(d.day, 2) + ['T'] + ClockTail(micros % DAY)))
  {
    hide CivilFromDays, Padded;
    CivilCorrect(micros / DAY);
  }

  /** Between the years 0 and 9999 texts sort as the instants do: section 5.1 of RFC 3339. */
  lemma TimestampOrder(a: int, b: int)
    requires 0 <= CivilFromDays(a / DAY).year <= 9999 && 0 <= CivilFromDays(b / DAY).year <= 9999
    ensures LexLess(TimestampText(a), TimestampText(b)) <==> a < b
  {
    hide CivilFromDays, Padded, TimestampText, LexLess, ClockTail, DayNumber;
    TimestampFields(a);
    TimestampFields(b);
    var d, e := CivilFromDays(a / DAY), CivilFromDays(b / DAY);
    CivilCorrect(a / DAY);
    CivilCorrect(b / DAY);
    DayNumberOrder(d, e);
    var t, u := a % DAY, b % DAY;
    ClockOrder(t, u);
    DateWidths(d);
    DateWidths(e);
    var x, x' := Padded(d.day, 2) + ['T'] + ClockTail(t), Padded(e.day, 2) + ['T'] + ClockTail(u);
    var y, y' := Padded(d.month, 2) + ['-'] + x, Padded(e.month, 2) + ['-'] + x';
    LexField(d.day, e.day, 2, 'T', ClockTail(t), ClockTail(u));
    LexField(d.month, e.month, 2, '-', x, x');
    LexField(d.year, e.year, 4, '-', y, y');
    DayThenTime(a, b);
  }

  lemma DateWidths(d: Date)
    requires ValidDate(d) && 0 <= d.year <= 9999
    ensures |Padded(d.year, 4)| == 4 && |Padded(d.month, 2)| == 2 && |Padded(d.day, 2)| == 2
  {
    hide Padded;
    PaddedLength(d.year, 4);
    PaddedLength(d.month, 2);
    PaddedLength(d.day, 2);
  }

  lemma DayThenTime(a: int, b: int)
    ensures a < b <==> a / DAY < b / DAY || (a / DAY == b / DAY && a % DAY < b % DAY)
  {
  }
}
