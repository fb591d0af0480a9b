/**
 The closed-form calendar of the JNI bridge and of the benchmark runner, against
 the proleptic Gregorian calendar.
 */
module Calendar {
  import opened Machine

  datatype Date = Date(year: int, month: int, day: int)

  function YearOfEra(doe: int): int {
    (doe - doe / 1460 + doe / 36524 - doe / 146096) / 365
  }

  /** Days from the first of March of an era's year 0 to that of its year `yoe`. */
  function YearStart(yoe: int): int {
    365 * yoe + yoe / 4 - yoe / 100
  }

  /** `civil_from_days`. */
  function CivilFromDays(days: int): Date {
    var z := days + 719468;
    var era := Quotient(if z >= 0 then z else z - 146096, 146097);
    var doe := z - era * 146097;
    var yoe := YearOfEra(doe);
    var y := yoe + era * 400;
    var doy := doe - YearStart(yoe);
    var mp := (5 * doy + 2) / 153;
    var day := doy - (153 * mp + 2) / 5 + 1;
    var month := mp + (if mp < 10 then 3 else -9);
    Date(y + (if month <= 2 then 1 else 0), month, day)
  }

  // The calendar

  predicate IsLeap(year: int) {
    year % 4 == 0 && (year % 100 != 0 || year % 400 == 0)
  }

  function DaysInMonth(year: int, month: int): int {
    if month == 2 then (if IsLeap(year) then 29 else 28)
    else if month == 4 || month == 6 || month == 9 || month == 11 then 30
    else 31
  }

  predicate ValidDate(d: Date) {
    1 <= d.month <= 12 && 1 <= d.day <= DaysInMonth(d.year, d.month)
  }

  /** The day after. */
  function Next(d: Date): Date {
    if d.day < DaysInMonth(d.year, d.month) then d.(day := d.day + 1)
    else if d.month < 12 then Date(d.year, d.month + 1, 1)
    else Date(d.year + 1, 1, 1)
  }

  // Centuries, four-year cycles and years of an era

  /** A position in an era: century `c`, four-year cycle `q`, year `t` of the cycle, day `d` of the year. */
  predicate InEra(c: int, q: int, t: int, d: int) {
    && 0 <= c < 4 && 0 <= q < 25 && 0 <= t < 4
    && 0 <= d <= (if t == 3 && (q < 24 || c == 3) then 365 else 364)
  }

  function DayOfEra(c: int, q: int, t: int, d: int): int {
    36524 * c + 1461 * q + 365 * t + d
  }

  lemma YearStartSplit(c: int, q: int, t: int)
    requires 0 <= c < 4 && 0 <= q < 25 && 0 <= t < 4
    ensures YearStart(100 * c + 4 * q + t) == DayOfEra(c, q, t, 0)
  {
    var y := 100 * c + 4 * q + t;
    Division4(y, 25 * c + q, t);
    Division100(y, c, 4 * q + t);
  }

  /** The closed form finds the year of every position. */
  lemma YearOfEraSplit(c: int, q: int, t: int, d: int)
    requires InEra(c, q, t, d)
    ensures 0 <= DayOfEra(c, q, t, d) < 146097
    ensures YearOfEra(DayOfEra(c, q, t, d)) == 100 * c + 4 * q + t
  {
    var doe, y := DayOfEra(c, q, t, d), 100 * c + 4 * q + t;
    var e := 24 * c + q + 365 * t + d;
    var carry := if e >= 1460 then 1 else 0;
    assert doe == 1460 * (25 * c + q) + e;
    assert doe / 1460 == 25 * c + q + carry;
    var last := if doe == 146096 then 1 else 0;
    assert doe / 36524 == c + last;
    assert doe / 146096 == last;
    assert 0 <= d - carry < 365;
    assert doe - doe / 1460 + doe / 36524 - doe / 146096 == 365 * y + (d - carry);
  }

  /** Every day of an era has a position. */
  lemma EraSplit(doe: int) returns (c: int, q: int, t: int, d: int)
    requires 0 <= doe < 146097
    ensures InEra(c, q, t, d) && doe == DayOfEra(c, q, t, d)
  {
    c := if doe == 146096 then 3 else doe / 36524;
    var r := doe - 36524 * c;
    q := r / 1461;
    var s := r - 1461 * q;
    t := if s == 1460 then 3 else s / 365;
    d := s - 365 * t;
  }

  lemma EraIsFloor(z: int)
    ensures Quotient(if z >= 0 then z else z - 146096, 146097) == z / 146097
  {
  }

  // Counting days

  /** Days from 0001-01-01 to the first of January of `year`. */
  function DaysBeforeYear(year: int): int {
    365 * (year - 1) + (year - 1) / 4 - (year - 1) / 100 + (year - 1) / 400
  }

  /** Days from the first of January to the first of `month`. */
  function DaysBeforeMonth(year: int, month: int): int {
    if month <= 1 then 0 else DaysBeforeMonth(year, month - 1) + DaysInMonth(year, month - 1)
  }

  /** Days from 1970-01-01, by counting years, months and days. */
  function DayNumber(d: Date): int {
    DaysBeforeYear(d.year) + DaysBeforeMonth(d.year, d.month) + d.day - 1 - 719162
  }

  lemma Carry4(n: int)
    ensures n / 4 - (n - 1) / 4 == if n % 4 == 0 then 1 else 0
  {
    Division4(n - 1, if n % 4 == 0 then n / 4 - 1 else n / 4, if n % 4 == 0 then 3 else n % 4 - 1);
  }

  lemma Division4(n: int, q: int, r: int)
    requires n == 4 * q + r && 0 <= r < 4
    ensures n / 4 == q && n % 4 == r
  {
  }

  lemma Carry100(n: int)
    ensures n / 100 - (n - 1) / 100 == if n % 100 == 0 then 1 else 0
  {
    Division100(n - 1, if n % 100 == 0 then n / 100 - 1 else n / 100, if n % 100 == 0 then 99 else n % 100 - 1);
  }

  lemma Division100(n: int, q: int, r: int)
    requires n == 100 * q + r && 0 <= r < 100
    ensures n / 100 == q && n % 100 == r
  {
  }

  lemma Carry400(n: int)
    ensures n / 400 - (n - 1) / 400 == if n % 400 == 0 then 1 else 0
  {
    Division400(n - 1, if n % 400 == 0 then n / 400 - 1 else n / 400, if n % 400 == 0 then 399 else n % 400 - 1);
  }

  lemma Division400(n: int, q: int, r: int)
    requires n == 400 * q + r && 0 <= r < 400
    ensures n / 400 == q && n % 400 == r
  {
  }

  lemma Divisors(n: int)
    ensures n % 400 == 0 ==> n % 100 == 0
    ensures n % 100 == 0 ==> n % 4 == 0
  {
    if n % 400 == 0 {
      Division100(n, 4 * (n / 400), 0);
    }
    if n % 100 == 0 {
      Division4(n, 25 * (n / 100), 0);
    }
  }

  lemma YearLength(year: int)
    ensures DaysBeforeYear(year + 1) == DaysBeforeYear(year) + (if IsLeap(year) then 366 else 365)
  {
    Carry4(year);
    Carry100(year);
    Carry400(year);
    Divisors(year);
  }

  lemma EraYear(era: int, yoe: int)
    requires 0 <= yoe < 400
    ensures DaysBeforeYear(400 * era + yoe + 1) == 146097 * era + YearStart(yoe)
  {
    var y := 400 * era + yoe;
    Division4(y, 100 * era + yoe / 4, yoe % 4);
    Division100(y, 4 * era + yoe / 100, yoe % 100);
    Division400(y, era, yoe);
  }

  /** The months of a year, cumulatively. */
  lemma MonthTable(year: int)
    ensures
      var leap := if IsLeap(year) then 1 else 0;
      && DaysBeforeMonth(year, 1) == 0 && DaysBeforeMonth(year, 2) == 31
      && DaysBeforeMonth(year, 3) == 59 + leap && DaysBeforeMonth(year, 4) == 90 + leap
      && DaysBeforeMonth(year, 5) == 120 + leap && DaysBeforeMonth(year, 6) == 151 + leap
      && DaysBeforeMonth(year, 7) == 181 + leap && DaysBeforeMonth(year, 8) == 212 + leap
      && DaysBeforeMonth(year, 9) == 243 + leap && DaysBeforeMonth(year, 10) == 273 + leap
      && DaysBeforeMonth(year, 11) == 304 + leap && DaysBeforeMonth(year, 12) == 334 + leap
  {
    var leap := if IsLeap(year) then 1 else 0;
    hide IsLeap;
    assert DaysBeforeMonth(year, 2) == 31;
    assert DaysBeforeMonth(year, 3) == 59 + leap;
    assert DaysBeforeMonth(year, 4) == 90 + leap;
    assert DaysBeforeMonth(year, 5) == 120 + leap;
    assert DaysBeforeMonth(year, 6) == 151 + leap;
    assert DaysBeforeMonth(year, 7) == 181 + leap;
    assert DaysBeforeMonth(year, 8) == 212 + leap;
    assert DaysBeforeMonth(year, 9) == 243 + leap;
    assert DaysBeforeMonth(year, 10) == 273 + leap;
    assert DaysBeforeMonth(year, 11) == 304 + leap;
  }

  /** A March-based day of year, placed in its month: `doy` counts from the first of March of year `y`. */
  function FromMarch(y: int, doy: int): Date {
    var mp := (5 * doy + 2) / 153;
    var month := mp + (if mp < 10 then 3 else -9);
    Date(y + (if month <= 2 then 1 else 0), month, doy - (153 * mp + 2) / 5 + 1)
  }

  lemma FromMarchCorrect(y: int, doy: int)
    requires 0 <= doy <= (if IsLeap(y + 1) then 365 else 364)
    ensures ValidDate(FromMarch(y, doy))
    ensures DayNumber(FromMarch(y, doy)) == DaysBeforeYear(y + 1) + doy - 719468
  {
    hide DaysBeforeYear, IsLeap, DaysBeforeMonth;
    YearLength(y);
    MonthTable(y);
    MonthTable(y + 1);
    var mp := (5 * doy + 2) / 153;
    assert 0 <= mp <= 11;
    assert (153 * mp + 2) / 5 <= doy < (153 * (mp + 1) + 2) / 5;
  }

  /** The date of every day is valid and its day number is the day. */
  lemma CivilCorrect(days: int)
    ensures ValidDate(CivilFromDays(days)) && DayNumber(CivilFromDays(days)) == days
  {
    hide CivilFromDays, FromMarch, DayNumber, ValidDate, YearOfEra, YearStart, DaysBeforeYear, IsLeap;
    CivilByEra(days);
    var z := days + 719468;
    var era, doe := z / 146097, z % 146097;
    var c, q, t, d := EraSplit(doe);
    YearOfEraSplit(c, q, t, d);
    YearStartSplit(c, q, t);
    LeapDay(era, c, q, t, d);
    FromMarchCorrect(400 * era + (100 * c + 4 * q + t), d);
    EraYear(era, 100 * c + 4 * q + t);
  }

  lemma CivilByEra(days: int)
    ensures
      var z := days + 719468;
      var yoe := YearOfEra(z % 146097);
      CivilFromDays(days) == FromMarch(400 * (z / 146097) + yoe, z % 146097 - YearStart(yoe))
  {
    hide YearOfEra, YearStart;
    EraIsFloor(days + 719468);
  }

  lemma LeapDay(era: int, c: int, q: int, t: int, d: int)
    requires InEra(c, q, t, d)
    ensures d <= (if IsLeap(400 * era + (100 * c + 4 * q + t) + 1) then 365 else 364)
  {
    var y := 400 * era + (100 * c + 4 * q + t) + 1;
    if d == 365 {
      Division4(y, 100 * era + 25 * c + q + 1, 0);
      if q == 24 {
        Division400(y, era + 1, 0);
      } else {
        Division100(y, 4 * era + c, 4 * (q + 1));
      }
    }
  }

  lemma NextCorrect(d: Date)
    requires ValidDate(d)
    ensures ValidDate(Next(d)) && DayNumber(Next(d)) == DayNumber(d) + 1
  {
    YearLength(d.year);
    MonthTable(d.year);
  }

  /** Chronological order of dates. */
  predicate Before(a: Date, b: Date) {
    a.year < b.year || (a.year == b.year && (a.month < b.month || (a.month == b.month && a.day < b.day)))
  }

  lemma DayOfYearRange(d: Date)
    requires ValidDate(d)
    ensures DaysBeforeYear(d.year) <= DayNumber(d) + 719162 < DaysBeforeYear(d.year + 1)
  {
    YearLength(d.year);
    MonthTable(d.year);
  }

  lemma {:induction false} YearsAscend(y: int, k: nat)
    ensures DaysBeforeYear(y) <= DaysBeforeYear(y + k)
  {
    if k == 0 {
    } else {
      YearsAscend(y, k - 1);
      YearLength(y + k - 1);
    }
  }

  lemma {:induction false} MonthsAscend(year: int, m: int, k: nat)
    requires 1 <= m && k >= 1
    ensures DaysBeforeMonth(year, m) + DaysInMonth(year, m) <= DaysBeforeMonth(year, m + k)
  {
    if k <= 1 {
    } else {
      MonthsAscend(year, m, k - 1);
    }
  }

  /** Day numbers order dates chronologically. */
  lemma DayNumberOrder(a: Date, b: Date)
    requires ValidDate(a) && ValidDate(b)
    ensures DayNumber(a) < DayNumber(b) <==> Before(a, b)
    ensures DayNumber(a) == DayNumber(b) <==> a == b
  {
    if Before(a, b) {
      BeforeIsLess(a, b);
    } else if a != b {
      BeforeIsLess(b, a);
    }
  }

  lemma BeforeIsLess(a: Date, b: Date)
    requires ValidDate(a) && ValidDate(b) && Before(a, b)
    ensures DayNumber(a) < DayNumber(b)
  {
    if a.year < b.year {
      DayOfYearRange(a);
      DayOfYearRange(b);
      YearsAscend(a.year + 1, b.year - a.year - 1);
    } else if a.month < b.month {
      MonthsAscend(a.year, a.month, b.month - a.month);
    }
  }

  /** The two-sided inverse. */
  lemma CivilInverse(d: Date)
    requires ValidDate(d)
    ensures CivilFromDays(DayNumber(d)) == d
  {
    CivilCorrect(DayNumber(d));
    DayNumberOrder(CivilFromDays(DayNumber(d)), d);
  }

  lemma Epoch()
    ensures CivilFromDays(0) == Date(1970, 1, 1)
  {
    hide CivilFromDays;
    assert DayNumber(Date(1970, 1, 1)) == 0;
    CivilInverse(Date(1970, 1, 1));
  }

  /** Day 0 is 1970-01-01 and each next day is the calendar's next date. */
  lemma CivilIsCalendar(days: int)
    ensures CivilFromDays(0) == Date(1970, 1, 1)
    ensures CivilFromDays(days + 1) == Next(CivilFromDays(days))
  {
    hide CivilFromDays, DayNumber, Next, ValidDate, Before;
    Epoch();
    CivilCorrect(days);
    CivilCorrect(days + 1);
    NextCorrect(CivilFromDays(days));
    DayNumberOrder(CivilFromDays(days + 1), Next(CivilFromDays(days)));
  }

  // The copy in the benchmark runner

  /** `civil_from_unix_days`, whose results are narrowed to i32 and u32. */
  function CivilFromUnixDays(days: int): Date {
    var z := days + 719468;
    var era := Quotient(if z >= 0 then z else z - 146096, 146097);
    var dayOfEra := z - era * 146097;
    var yearOfEra := (dayOfEra - dayOfEra / 1460 + dayOfEra / 36524 - dayOfEra / 146096) / 365;
    var year := yearOfEra + era * 400;
    var dayOfYear := dayOfEra - (365 * yearOfEra + yearOfEra / 4 - yearOfEra / 100);
    var monthPrime := (5 * dayOfYear + 2) / 153;
    var day := dayOfYear - (153 * monthPrime + 2) / 5 + 1;
    var month := monthPrime + (if monthPrime < 10 then 3 else -9);
    var year' := year + (if month <= 2 then 1 else 0);
    Date(AsI32(year'), AsU32(month), AsU32(day))
  }

  lemma LeapsBounded(n: int)
    ensures n >= 0 ==> n / 4 - n / 100 + n / 400 >= 0
    ensures n <= 0 ==> n / 4 - n / 100 + n / 400 <= 1
  {
  }

  lemma YearFits(d: Date)
    requires ValidDate(d) && -0x8000_0000 <= DayNumber(d) < 0x8000_0000
    ensures -0x8000_0000 <= d.year < 0x8000_0000
  {
    hide DayNumber;
    DayOfYearRange(d);
    LeapsBounded(d.year - 1);
    LeapsBounded(d.year);
  }

  lemma Narrowed(d: Date)
    requires 1 <= d.month <= 12 && 1 <= d.day <= 31
    ensures Date(AsI32(d.year), AsU32(d.month), AsU32(d.day)) == d <==> -0x8000_0000 <= d.year < 0x8000_0000
  {
  }

  lemma CopyNarrows(days: int)
    ensures
      var d := CivilFromDays(days);
      CivilFromUnixDays(days) == Date(AsI32(d.year), AsU32(d.month), AsU32(d.day))
  {
    hide Quotient, AsI32, AsU32;
  }

  /** The two calendars agree exactly when the year is a 32-bit integer, which covers every 32-bit day. */
  lemma CopiesAgree(days: int)
    ensures CivilFromUnixDays(days) == CivilFromDays(days) <==> -0x8000_0000 <= CivilFromDays(days).year < 0x8000_0000
    ensures -0x8000_0000 <= days < 0x8000_0000 ==> CivilFromUnixDays(days) == CivilFromDays(days)
  {
    hide CivilFromDays, CivilFromUnixDays, DayNumber, AsI32, AsU32;
    var d := CivilFromDays(days);
    CivilCorrect(days);
    CopyNarrows(days);
    Narrowed(d);
    if -0x8000_0000 <= days < 0x8000_0000 {
      YearFits(d);
    }
  }
}
