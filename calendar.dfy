/** Calendar dates in the proleptic Gregorian calendar, as java.time.LocalDate
    represents them: the leap-year rule, month lengths, the count of days since
    1970-01-01, the ISO day of the week, stepping by days, and the two
    day-of-week adjusters the weekly report uses. */
module Calendar {

  /** A date as (year, month, day); ValidDate says when it names a real day. */
  datatype Date = Date(year: int, month: int, day: int)

  /** Gregorian leap years: divisible by 4, except centuries not divisible by 400. */
  predicate IsLeapYear(y: int) {
    y % 4 == 0 && (y % 100 != 0 || y % 400 == 0)
  }

  function DaysInYear(y: int): int {
    if IsLeapYear(y) then 366 else 365
  }

  /** Length of a month; February has 29 days in a leap year. */
  function DaysInMonth(y: int, m: int): (n: int)
    requires 1 <= m <= 12
    ensures 28 <= n <= 31
    ensures m == 2 ==> (n == 29 <==> IsLeapYear(y))
  {
    if m == 2 then (if IsLeapYear(y) then 29 else 28)
    else if m == 4 || m == 6 || m == 9 || m == 11 then 30
    else 31
  }

  predicate ValidDate(d: Date) {
    1 <= d.month <= 12 && 1 <= d.day <= DaysInMonth(d.year, d.month)
  }

  /** Strict chronological order, compared field by field as LocalDate.compareTo does. */
  predicate IsBefore(a: Date, b: Date) {
    a.year < b.year ||
    (a.year == b.year && (a.month < b.month || (a.month == b.month && a.day < b.day)))
  }

  predicate IsAfter(a: Date, b: Date) {
    IsBefore(b, a)
  }

  // ---------------------------------------------------------------------------
  // Counting days

  /** Days from 0000-01-01 to January 1 of year y (negative for years before 0). */
  function DaysBeforeYear(y: int): int {
    365 * y + (y + 3) / 4 - (y + 99) / 100 + (y + 399) / 400
  }

  /** Days from January 1 to the first day of month m of year y. */
  function DaysBeforeMonth(y: int, m: int): int
    requires 1 <= m <= 12
  {
    var before :=
      if m == 1 then 0 else if m == 2 then 31 else if m == 3 then 59
      else if m == 4 then 90 else if m == 5 then 120 else if m == 6 then 151
      else if m == 7 then 181 else if m == 8 then 212 else if m == 9 then 243
      else if m == 10 then 273 else if m == 11 then 304 else 334;
    before + (if m > 2 && IsLeapYear(y) then 1 else 0)
  }

  /** Days from 0000-01-01 to 1970-01-01. */
  const DaysFrom0000To1970: int := 719528

  /** The number of days since 1970-01-01 (LocalDate.toEpochDay). */
  function EpochDay(d: Date): int
    requires 1 <= d.month <= 12
  {
    DaysBeforeYear(d.year) + DaysBeforeMonth(d.year, d.month) + d.day - 1 - DaysFrom0000To1970
  }

  /** ISO day of the week, 1 = Monday .. 7 = Sunday; 1970-01-01 was a Thursday. */
  function DayOfWeek(d: Date): (w: int)
    requires ValidDate(d)
    ensures 1 <= w <= 7
  {
    Weekday(EpochDay(d))
  }

  /** 1970-01-01 is day 0 of the count, and it was a Thursday. */
  lemma EpochAnchor()
    ensures EpochDay(Date(1970, 1, 1)) == 0
    ensures DayOfWeek(Date(1970, 1, 1)) == 4
  {
  }

  /** The ISO day of the week of day count e. */
  function Weekday(e: int): (w: int)
    ensures 1 <= w <= 7
  {
    (e + 3) % 7 + 1
  }

  /** Moving y up by one adds a leap day to the count (y + 3) / 4 exactly when y is
      a multiple of 4; likewise for the century and 400-year terms. */
  lemma FourStep(y: int)
    ensures (y + 4) / 4 - (y + 3) / 4 == if y % 4 == 0 then 1 else 0
  {
    var q, r := y / 4, y % 4;
    assert y == 4 * q + r && 0 <= r < 4;
    assert (y + 4) / 4 == q + 1;
    assert (y + 3) / 4 == if r == 0 then q else q + 1;
  }

  lemma HundredStep(y: int)
    ensures (y + 100) / 100 - (y + 99) / 100 == if y % 100 == 0 then 1 else 0
  {
    var q, r := y / 100, y % 100;
    assert y == 100 * q + r && 0 <= r < 100;
    assert (y + 100) / 100 == q + 1;
    assert (y + 99) / 100 == if r == 0 then q else q + 1;
  }

  lemma FourHundredStep(y: int)
    ensures (y + 400) / 400 - (y + 399) / 400 == if y % 400 == 0 then 1 else 0
  {
    var q, r := y / 400, y % 400;
    assert y == 400 * q + r && 0 <= r < 400;
    assert (y + 400) / 400 == q + 1;
    assert (y + 399) / 400 == if r == 0 then q else q + 1;
  }

  /** A multiple of 400 is a multiple of 100, and a multiple of 100 a multiple of 4. */
  lemma DivisorChain(y: int)
    ensures y % 400 == 0 ==> y % 100 == 0
    ensures y % 100 == 0 ==> y % 4 == 0
  {
    var q4, r4 := y / 4, y % 4;
    var q100, r100 := y / 100, y % 100;
    var q400, r400 := y / 400, y % 400;
    assert y == 4 * q4 + r4 && 0 <= r4 < 4;
    assert y == 100 * q100 + r100 && 0 <= r100 < 100;
    assert y == 400 * q400 + r400 && 0 <= r400 < 400;
    if r400 == 0 {
      MultipleOf(y, 100, 4 * q400, q100, r100);
    }
    if r100 == 0 {
      MultipleOf(y, 4, 25 * q100, q4, r4);
    }
  }

  /** If y is m times k, its remainder by m is zero. */
  lemma MultipleOf(y: int, m: int, k: int, q: int, r: int)
    requires 0 < m && y == m * k && y == m * q + r && 0 <= r < m
    ensures r == 0
  {
    assert m * (k - q) == r;
    ProductBounds(m, k - q);
  }

  /** A non-zero multiple of a positive m is at least m away from zero. */
  lemma ProductBounds(m: int, j: int)
    requires 0 < m
    ensures j >= 1 ==> m * j >= m
    ensures j <= -1 ==> m * j <= -m
  {
  }

  /** Each year contributes its own length to the day count. */
  lemma YearStep(y: int)
    ensures DaysBeforeYear(y + 1) == DaysBeforeYear(y) + DaysInYear(y)
  {
    FourStep(y);
    HundredStep(y);
    FourHundredStep(y);
    DivisorChain(y);
  }

  lemma MonthStep(y: int, m: int)
    requires 1 <= m < 12
    ensures DaysBeforeMonth(y, m + 1) == DaysBeforeMonth(y, m) + DaysInMonth(y, m)
  {
  }

  lemma LastMonth(y: int)
    ensures DaysBeforeMonth(y, 12) + DaysInMonth(y, 12) == DaysInYear(y)
  {
  }

  /** Whole years lie in order on the day line. */
  lemma {:induction false} YearsInOrder(y1: int, y2: int)
    requires y1 < y2
    ensures DaysBeforeYear(y1) + DaysInYear(y1) <= DaysBeforeYear(y2)
    decreases y2 - y1
  {
    YearStep(y1);
    if y1 + 1 < y2 {
      YearsInOrder(y1 + 1, y2);
    }
  }

  /** Whole months of one year lie in order on the day line. */
  lemma {:induction false} MonthsInOrder(y: int, m1: int, m2: int)
    requires 1 <= m1 < m2 <= 12
    ensures DaysBeforeMonth(y, m1) + DaysInMonth(y, m1) <= DaysBeforeMonth(y, m2)
    decreases m2 - m1
  {
    MonthStep(y, m1);
    if m1 + 1 < m2 {
      MonthsInOrder(y, m1 + 1, m2);
    }
  }

  /** A valid date's offset within its year is in [0, DaysInYear). */
  lemma DayOfYearBounds(d: Date)
    requires ValidDate(d)
    ensures 0 <= DaysBeforeMonth(d.year, d.month) + d.day - 1 < DaysInYear(d.year)
  {
    if d.month < 12 {
      MonthsInOrder(d.year, d.month, 12);
    }
    LastMonth(d.year);
  }

  /** The field-by-field order of dates is the order of their day counts. */
  lemma EpochDayOrder(a: Date, b: Date)
    requires ValidDate(a) && ValidDate(b)
    ensures IsBefore(a, b) <==> EpochDay(a) < EpochDay(b)
  {
    DayOfYearBounds(a);
    DayOfYearBounds(b);
    if a.year < b.year {
      YearsInOrder(a.year, b.year);
    } else if b.year < a.year {
      YearsInOrder(b.year, a.year);
    } else if a.month < b.month {
      MonthsInOrder(a.year, a.month, b.month);
    } else if b.month < a.month {
      MonthsInOrder(a.year, b.month, a.month);
    }
  }

  /** Distinct valid dates have distinct day counts. */
  lemma EpochDayInjective(a: Date, b: Date)
    requires ValidDate(a) && ValidDate(b)
    ensures EpochDay(a) == EpochDay(b) <==> a == b
  {
    EpochDayOrder(a, b);
    EpochDayOrder(b, a);
  }

  // ---------------------------------------------------------------------------
  // Stepping by days

  /** The following day. */
  function NextDay(d: Date): (r: Date)
    requires ValidDate(d)
    ensures ValidDate(r) && EpochDay(r) == EpochDay(d) + 1
  {
    if d.day < DaysInMonth(d.year, d.month) then
      Date(d.year, d.month, d.day + 1)
    else if d.month < 12 then
      MonthStep(d.year, d.month);
      Date(d.year, d.month + 1, 1)
    else
      LastMonth(d.year);
      YearStep(d.year);
      Date(d.year + 1, 1, 1)
  }

  /** The preceding day. */
  function PrevDay(d: Date): (r: Date)
    requires ValidDate(d)
    ensures ValidDate(r) && EpochDay(r) + 1 == EpochDay(d)
  {
    if d.day > 1 then
      Date(d.year, d.month, d.day - 1)
    else if d.month > 1 then
      MonthStep(d.year, d.month - 1);
      Date(d.year, d.month - 1, DaysInMonth(d.year, d.month - 1))
    else
      LastMonth(d.year - 1);
      YearStep(d.year - 1);
      Date(d.year - 1, 12, 31)
  }

  /** The date n days later (LocalDate.plusDays). */
  function PlusDays(d: Date, n: nat): (r: Date)
    requires ValidDate(d)
    ensures ValidDate(r) && EpochDay(r) == EpochDay(d) + n
    decreases n
  {
    if n == 0 then d else PlusDays(NextDay(d), n - 1)
  }

  /** The date n days earlier (LocalDate.minusDays). */
  function MinusDays(d: Date, n: nat): (r: Date)
    requires ValidDate(d)
    ensures ValidDate(r) && EpochDay(r) + n == EpochDay(d)
    decreases n
  {
    if n == 0 then d else MinusDays(PrevDay(d), n - 1)
  }

  /** Shifting a day count by k shifts its day of the week by k, modulo 7. */
  lemma WeekdayShift(e: int, k: int)
    ensures Weekday(e + k) == (Weekday(e) - 1 + k) % 7 + 1
  {
  }

  /** Dates k days apart are k days apart in the week, modulo 7. */
  lemma DayOfWeekAfter(a: Date, b: Date, k: int)
    requires ValidDate(a) && ValidDate(b) && EpochDay(b) == EpochDay(a) + k
    ensures DayOfWeek(b) == (DayOfWeek(a) - 1 + k) % 7 + 1
  {
    WeekdayShift(EpochDay(a), k);
  }

  /** Two days of the week that match lie 0 or at least 7 days apart. */
  lemma SameWeekdayWithinAWeek(w: int, k: int)
    requires 1 <= w <= 7 && (w - 1 + k) % 7 + 1 == w && k <= 6
    ensures k <= 0
  {
  }

  /** The step previousOrSame takes back from weekday c to reach weekday w. */
  lemma PreviousStep(c: int, w: int, n: int)
    requires 1 <= c <= 7 && 1 <= w <= 7 && c != w
    requires n == if w - c >= 0 then 7 - (w - c) else c - w
    ensures 1 <= n <= 6 && (c - 1 - n) % 7 + 1 == w
  {
  }

  /** The step nextOrSame takes forward from weekday c to reach weekday w. */
  lemma NextStep(c: int, w: int, n: int)
    requires 1 <= c <= 7 && 1 <= w <= 7 && c != w
    requires n == if c - w >= 0 then 7 - (c - w) else w - c
    ensures 1 <= n <= 6 && (c - 1 + n) % 7 + 1 == w
  {
  }

  /** Each day advances the day of the week by one, Sunday wrapping to Monday. */
  lemma NextDayOfWeek(d: Date)
    requires ValidDate(d)
    ensures DayOfWeek(NextDay(d)) == if DayOfWeek(d) == 7 then 1 else DayOfWeek(d) + 1
  {
    var w := DayOfWeek(d);
    WeekdayShift(EpochDay(d), 1);
    assert DayOfWeek(NextDay(d)) == (w - 1 + 1) % 7 + 1;
    WrapAfterSunday(w);
  }

  lemma WrapAfterSunday(w: int)
    requires 1 <= w <= 7
    ensures (w - 1 + 1) % 7 + 1 == if w == 7 then 1 else w + 1
  {
  }

  // ---------------------------------------------------------------------------
  // Day-of-week adjusters (TemporalAdjusters.previousOrSame / nextOrSame)

  /** A date n days before d, n being the step previousOrSame computes from d's
      day of the week back to dow, falls on dow. */
  lemma BackwardLands(d: Date, r: Date, dow: int, n: int)
    requires ValidDate(d) && ValidDate(r) && 1 <= dow <= 7 && DayOfWeek(d) != dow
    requires n == if dow - DayOfWeek(d) >= 0 then 7 - (dow - DayOfWeek(d)) else DayOfWeek(d) - dow
    requires EpochDay(r) + n == EpochDay(d)
    ensures 1 <= n <= 6 && DayOfWeek(r) == dow
  {
    PreviousStep(DayOfWeek(d), dow, n);
    WeekdayShift(EpochDay(d), -n);
  }

  /** A date n days after d, n being the step nextOrSame computes from d's day of
      the week forward to dow, falls on dow. */
  lemma ForwardLands(d: Date, r: Date, dow: int, n: int)
    requires ValidDate(d) && ValidDate(r) && 1 <= dow <= 7 && DayOfWeek(d) != dow
    requires n == if DayOfWeek(d) - dow >= 0 then 7 - (DayOfWeek(d) - dow) else dow - DayOfWeek(d)
    requires EpochDay(r) == EpochDay(d) + n
    ensures 1 <= n <= 6 && DayOfWeek(r) == dow
  {
    NextStep(DayOfWeek(d), dow, n);
    WeekdayShift(EpochDay(d), n);
  }

  /** The given day of the week on or before d. */
  function PreviousOrSame(d: Date, dow: int): (r: Date)
    requires ValidDate(d) && 1 <= dow <= 7
    ensures ValidDate(r) && DayOfWeek(r) == dow
    ensures 0 <= EpochDay(d) - EpochDay(r) <= 6
  {
    var calDow := DayOfWeek(d);
    if calDow == dow then d
    else
      var daysDiff := dow - calDow;
      var n := if daysDiff >= 0 then 7 - daysDiff else -daysDiff;
      var r := MinusDays(d, n);
      BackwardLands(d, r, dow, n);
      r
  }

  /** The given day of the week on or after d. */
  function NextOrSame(d: Date, dow: int): (r: Date)
    requires ValidDate(d) && 1 <= dow <= 7
    ensures ValidDate(r) && DayOfWeek(r) == dow
    ensures 0 <= EpochDay(r) - EpochDay(d) <= 6
  {
    var calDow := DayOfWeek(d);
    if calDow == dow then d
    else
      var daysDiff := calDow - dow;
      var n := if daysDiff >= 0 then 7 - daysDiff else -daysDiff;
      var r := PlusDays(d, n);
      ForwardLands(d, r, dow, n);
      r
  }

  /** PreviousOrSame finds the latest such day: no date strictly between it and d
      falls on that day of the week. */
  lemma PreviousOrSameIsLatest(d: Date, dow: int, e: Date)
    requires ValidDate(d) && 1 <= dow <= 7 && ValidDate(e)
    requires DayOfWeek(e) == dow && !IsAfter(e, d)
    ensures !IsBefore(PreviousOrSame(d, dow), e)
  {
    var r := PreviousOrSame(d, dow);
    EpochDayOrder(d, e);
    EpochDayOrder(r, e);
    var k := EpochDay(e) - EpochDay(r);
    DayOfWeekAfter(r, e, k);
    SameWeekdayWithinAWeek(dow, k);
  }

  /** NextOrSame finds the earliest such day: no date strictly between d and it
      falls on that day of the week. */
  lemma NextOrSameIsEarliest(d: Date, dow: int, e: Date)
    requires ValidDate(d) && 1 <= dow <= 7 && ValidDate(e)
    requires DayOfWeek(e) == dow && !IsBefore(e, d)
    ensures !IsAfter(NextOrSame(d, dow), e)
  {
    var r := NextOrSame(d, dow);
    EpochDayOrder(e, d);
    EpochDayOrder(e, r);
    var k := EpochDay(r) - EpochDay(e);
    DayOfWeekAfter(e, r, k);
    SameWeekdayWithinAWeek(dow, k);
  }
}
