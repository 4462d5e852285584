/**
 AD dates as the stage documents store them: text.

 `date.fromisoformat` reads four spellings of a day, two by the calendar and two by the ISO
 week, and the docket merge compares dates as text. This module says which texts are dates,
 which day each one names, and where the order of the texts agrees with the order of the days.
 */
module TextDates {
  import opened Common

  // ----- text order -----

  /** Python's `<=` on strings: code point by code point, a proper prefix first. */
  predicate TextLeq(a: string, b: string) {
    a == "" || (b != "" && (a[0] < b[0] || (a[0] == b[0] && TextLeq(a[1..], b[1..]))))
  }

  /** The first place where two texts differ decides their order. */
  lemma {:induction false} FirstDifferenceDecides(a: string, b: string, k: nat)
    requires k < |a| && k < |b| && a[..k] == b[..k] && a[k] != b[k]
    ensures TextLeq(a, b) <==> a[k] < b[k]
  {
    if k > 0 {
      assert a[0] == a[..k][0] == b[..k][0] == b[0];
      assert a[1..][..k - 1] == a[..k][1..] == b[..k][1..] == b[1..][..k - 1];
      FirstDifferenceDecides(a[1..], b[1..], k - 1);
    }
  }

  /** A text sorts before every text it begins, and after every text it properly continues. */
  lemma {:induction false} PrefixOrder(a: string, b: string)
    requires a <= b
    ensures TextLeq(a, b) && (TextLeq(b, a) <==> a == b)
  {
    if a != "" {
      assert a[1..] <= b[1..];
      PrefixOrder(a[1..], b[1..]);
    }
  }

  lemma FirstDifference(a: string, b: string) returns (k: nat)
    ensures k <= |a| && k <= |b| && a[..k] == b[..k]
    ensures k < |a| && k < |b| ==> a[k] != b[k]
  {
    k := 0;
    while k < |a| && k < |b| && a[k] == b[k]
      invariant k <= |a| && k <= |b| && a[..k] == b[..k]
    {
      k := k + 1;
    }
  }

  lemma TextOrderIsTotal(a: string, b: string)
    ensures TextLeq(a, b) || TextLeq(b, a)
  {
    var k := FirstDifference(a, b);
    if k < |a| && k < |b| {
      FirstDifferenceDecides(a, b, k);
      FirstDifferenceDecides(b, a, k);
    } else if k == |a| {
      PrefixOrder(a, b);
    } else {
      PrefixOrder(b, a);
    }
  }

  // ----- spellings of a day -----

  predicate IsDigit(c: char) {
    '0' <= c <= '9'
  }

  function DigitValue(c: char): (d: int) {
    c as int - '0' as int
  }

  predicate DigitAt(s: string, i: nat) {
    i < |s| && IsDigit(s[i])
  }

  predicate FourDigits(s: string) {
    DigitAt(s, 0) && DigitAt(s, 1) && DigitAt(s, 2) && DigitAt(s, 3)
  }

  predicate EightDigits(s: string) {
    |s| == 8 && FourDigits(s) && DigitAt(s, 4) && DigitAt(s, 5) && DigitAt(s, 6) && DigitAt(s, 7)
  }

  /** Two bytes of UTF-8: what the reader skips after an undashed date, if anything. */
  predicate Skipped(rest: string) {
    || rest == ""
    || (|rest| == 2 && rest[0] as int < 0x80 && rest[1] as int < 0x80)
    || (|rest| == 1 && 0x80 <= rest[0] as int < 0x800)
  }

  /** `YYYY-MM-DD`, the spelling every court docket carries. */
  predicate Dashed(s: string) {
    && |s| == 10 && FourDigits(s) && s[4] == '-' && DigitAt(s, 5) && DigitAt(s, 6)
    && s[7] == '-' && DigitAt(s, 8) && DigitAt(s, 9)
  }

  /** `YYYYMMDD`. */
  predicate Compact(s: string) {
    |s| >= 8 && EightDigits(s[..8]) && Skipped(s[8..])
  }

  /** `YYYY-Www` or `YYYY-Www-D`. */
  predicate WeekDashed(s: string) {
    && FourDigits(s) && |s| >= 8 && s[4] == '-' && s[5] == 'W' && DigitAt(s, 6) && DigitAt(s, 7)
    && (|s| == 8 || (|s| == 10 && s[8] == '-' && DigitAt(s, 9)))
  }

  /** `YYYYWww` or `YYYYWwwD`. */
  predicate WeekCompact(s: string) {
    && FourDigits(s) && |s| >= 7 && s[4] == 'W' && DigitAt(s, 5) && DigitAt(s, 6)
    && (|s| == 7 || (DigitAt(s, 7) && Skipped(s[8..])))
  }

  const DASHED: nat := 0
  const WEEK_DASHED: nat := 1
  const COMPACT: nat := 2
  const WEEK_COMPACT: nat := 3
  const NO_DATE: nat := 4

  /** Which spelling a text has, numbered as the spellings of one year sort. */
  function Spelling(s: string): (k: nat)
    ensures k <= NO_DATE
  {
    if Dashed(s) then DASHED
    else if WeekDashed(s) then WEEK_DASHED
    else if Compact(s) then COMPACT
    else if WeekCompact(s) then WEEK_COMPACT
    else NO_DATE
  }

  /** Year, month or week, day: the eight digits a spelling carries. A week without a day is its Monday. */
  function DigitsOf(s: string): (d: string)
    requires Spelling(s) != NO_DATE
    ensures EightDigits(d) && d[..4] == s[..4]
  {
    if Dashed(s) then [s[0], s[1], s[2], s[3], s[5], s[6], s[8], s[9]]
    else if WeekDashed(s) then [s[0], s[1], s[2], s[3], s[6], s[7], '0', if |s| == 8 then '1' else s[9]]
    else if Compact(s) then s[..8]
    else [s[0], s[1], s[2], s[3], s[5], s[6], '0', if |s| == 7 then '1' else s[7]]
  }

  function Year(s: string): (y: int)
    requires FourDigits(s)
    ensures 0 <= y <= 9999
  {
    1000 * DigitValue(s[0]) + 100 * DigitValue(s[1]) + 10 * DigitValue(s[2]) + DigitValue(s[3])
  }

  /** The month, or the week. */
  function Middle(d: string): (m: int)
    requires EightDigits(d)
    ensures 0 <= m <= 99
  {
    10 * DigitValue(d[4]) + DigitValue(d[5])
  }

  function Last(d: string): (n: int)
    requires EightDigits(d)
    ensures 0 <= n <= 99
  {
    10 * DigitValue(d[6]) + DigitValue(d[7])
  }

  /** The eight digits as one number; its order is the order of (year, middle, last). */
  function Reading(d: string): (n: int)
    requires EightDigits(d)
  {
    10000 * Year(d) + 100 * Middle(d) + Last(d)
  }

  // ----- days -----

  predicate LeapYear(year: int) {
    year % 4 == 0 && (year % 100 != 0 || year % 400 == 0)
  }

  function DaysIn(year: int, month: int): (n: int)
    ensures 28 <= n <= 31
  {
    if month == 2 then (if LeapYear(year) then 29 else 28)
    else if month in {4, 6, 9, 11} then 30
    else 31
  }

  function DaysBeforeYear(year: int): int {
    365 * (year - 1) + (year - 1) / 4 - (year - 1) / 100 + (year - 1) / 400
  }

  function DaysBeforeMonth(year: int, month: nat): nat {
    if month <= 1 then 0 else DaysBeforeMonth(year, month - 1) + DaysIn(year, month - 1)
  }

  predicate OnTheCalendar(year: int, month: int, day: int) {
    1 <= year && 1 <= month <= 12 && 1 <= day <= DaysIn(year, month)
  }

  /** Days counted from the first day of year 1, which is 1. */
  function Ordinal(year: int, month: nat, day: int): int {
    DaysBeforeYear(year) + DaysBeforeMonth(year, month) + day
  }

  const LAST_DAY := 3652059

  /** Monday is 0. */
  function Weekday(ordinal: int): (w: int)
    ensures 0 <= w < 7
  {
    (ordinal + 6) % 7
  }

  /** The Monday of the week that holds the first Thursday of the year. */
  function FirstMonday(year: int): int {
    var newYear := DaysBeforeYear(year) + 1;
    newYear - Weekday(newYear) + if Weekday(newYear) > 3 then 7 else 0
  }

  function WeeksIn(year: int): int {
    var w := Weekday(DaysBeforeYear(year) + 1);
    if w == 3 || (w == 2 && LeapYear(year)) then 53 else 52
  }

  predicate InTheWeeks(year: int, week: int, day: int) {
    1 <= year && 1 <= week <= WeeksIn(year) && 1 <= day <= 7
  }

  function WeekOrdinal(year: int, week: int, day: int): int {
    FirstMonday(year) + 7 * (week - 1) + day - 1
  }

  predicate ByWeek(s: string) {
    Spelling(s) == WEEK_DASHED || Spelling(s) == WEEK_COMPACT
  }

  /** The day a non-empty text names, or None when `date.fromisoformat` refuses it. */
  function ParseDate(s: string): Option<int> {
    if Spelling(s) == NO_DATE then None
    else
      var d := DigitsOf(s);
      if ByWeek(s) then
        if InTheWeeks(Year(d), Middle(d), Last(d)) && WeekOrdinal(Year(d), Middle(d), Last(d)) <= LAST_DAY
        then Some(WeekOrdinal(Year(d), Middle(d), Last(d))) else None
      else
        if OnTheCalendar(Year(d), Middle(d), Last(d))
        then Some(Ordinal(Year(d), Middle(d), Last(d))) else None
  }

  // ----- days in the order of their parts -----

  /** One year more adds one to a quotient exactly where the divisor divides. */
  lemma Quotients(year: int)
    ensures year / 4 == (year - 1) / 4 + if year % 4 == 0 then 1 else 0
    ensures year / 100 == (year - 1) / 100 + if year % 100 == 0 then 1 else 0
    ensures year / 400 == (year - 1) / 400 + if year % 400 == 0 then 1 else 0
  {
  }

  lemma Centuries(k: int)
    ensures (100 * k) % 4 == 0 && (400 * k) % 100 == 0
  {
  }

  lemma YearLength(year: int)
    ensures DaysBeforeYear(year + 1) == DaysBeforeYear(year) + if LeapYear(year) then 366 else 365
  {
    Quotients(year);
    Centuries(year / 100);
    Centuries(year / 400);
  }

  lemma {:induction false} YearsAdvance(y: int, z: int)
    requires y < z
    ensures DaysBeforeYear(y + 1) <= DaysBeforeYear(z)
    decreases z - y
  {
    if y + 1 < z {
      YearLength(y + 1);
      YearsAdvance(y + 1, z);
    }
  }

  lemma {:induction false} MonthsAdvance(year: int, m: nat, n: nat)
    requires 1 <= m < n
    ensures DaysBeforeMonth(year, m) + DaysIn(year, m) <= DaysBeforeMonth(year, n)
  {
    if m + 1 < n {
      MonthsAdvance(year, m, n - 1);
    }
  }

  lemma YearIsFull(year: int)
    ensures DaysBeforeMonth(year, 12) + DaysIn(year, 12) == if LeapYear(year) then 366 else 365
  {
    var february := DaysIn(year, 2);
    assert DaysBeforeMonth(year, 2) == 31;
    assert DaysBeforeMonth(year, 3) == 31 + february;
    assert DaysBeforeMonth(year, 4) == 62 + february;
    assert DaysBeforeMonth(year, 5) == 92 + february;
    assert DaysBeforeMonth(year, 6) == 123 + february;
    assert DaysBeforeMonth(year, 7) == 153 + february;
    assert DaysBeforeMonth(year, 8) == 184 + february;
    assert DaysBeforeMonth(year, 9) == 215 + february;
    assert DaysBeforeMonth(year, 10) == 245 + february;
    assert DaysBeforeMonth(year, 11) == 276 + february;
    assert DaysBeforeMonth(year, 12) == 306 + february;
  }

  lemma DayWithinYear(year: int, month: nat, day: int)
    requires OnTheCalendar(year, month, day)
    ensures DaysBeforeYear(year) < Ordinal(year, month, day) <= DaysBeforeYear(year + 1)
  {
    YearLength(year);
    YearIsFull(year);
    if month < 12 {
      MonthsAdvance(year, month, 12);
    }
  }

  /** Year, month, day; or year, week, day. */
  datatype Parts = Parts(year: int, middle: nat, last: int)

  predicate Before(a: Parts, b: Parts) {
    a.year < b.year || (a.year == b.year && (a.middle < b.middle || (a.middle == b.middle && a.last < b.last)))
  }

  lemma CalendarOrder(a: Parts, b: Parts)
    requires OnTheCalendar(a.year, a.middle, a.last) && OnTheCalendar(b.year, b.middle, b.last)
    requires Before(a, b)
    ensures Ordinal(a.year, a.middle, a.last) < Ordinal(b.year, b.middle, b.last)
  {
    DayWithinYear(a.year, a.middle, a.last);
    DayWithinYear(b.year, b.middle, b.last);
    if a.year < b.year {
      YearsAdvance(a.year, b.year);
    } else if a.middle < b.middle {
      MonthsAdvance(a.year, a.middle, b.middle);
    }
  }

  lemma WeekdayAfterAYear(ordinal: int)
    ensures Weekday(ordinal + 365) == if Weekday(ordinal) == 6 then 0 else Weekday(ordinal) + 1
    ensures Weekday(ordinal + 366) == if Weekday(ordinal) >= 5 then Weekday(ordinal) - 5 else Weekday(ordinal) + 2
  {
  }

  lemma WeekYearLength(year: int)
    ensures FirstMonday(year + 1) == FirstMonday(year) + 7 * WeeksIn(year)
  {
    YearLength(year);
    WeekdayAfterAYear(DaysBeforeYear(year) + 1);
  }

  lemma {:induction false} WeekYearsAdvance(y: int, z: int)
    requires y < z
    ensures FirstMonday(y + 1) <= FirstMonday(z)
    decreases z - y
  {
    if y + 1 < z {
      WeekYearLength(y + 1);
      WeekYearsAdvance(y + 1, z);
    }
  }

  lemma WeekOrder(a: Parts, b: Parts)
    requires InTheWeeks(a.year, a.middle, a.last) && InTheWeeks(b.year, b.middle, b.last)
    requires Before(a, b)
    ensures WeekOrdinal(a.year, a.middle, a.last) < WeekOrdinal(b.year, b.middle, b.last)
  {
    if a.year < b.year {
      WeekYearLength(a.year);
      WeekYearsAdvance(a.year, b.year);
    }
  }

  function PartsOf(s: string): Parts
    requires Spelling(s) != NO_DATE
  {
    Parts(Year(DigitsOf(s)), Middle(DigitsOf(s)), Last(DigitsOf(s)))
  }

  /** Within the calendar, and within the weeks, readings order as their days do. */
  lemma ReadingOrder(a: string, b: string)
    requires ParseDate(a).Some? && ParseDate(b).Some? && ByWeek(a) == ByWeek(b)
    ensures Reading(DigitsOf(a)) <= Reading(DigitsOf(b)) <==> ParseDate(a).value <= ParseDate(b).value
  {
    var p, q := PartsOf(a), PartsOf(b);
    if Before(p, q) {
      if ByWeek(a) { WeekOrder(p, q); } else { CalendarOrder(p, q); }
    } else if Before(q, p) {
      if ByWeek(a) { WeekOrder(q, p); } else { CalendarOrder(q, p); }
    }
  }

  // ----- every day can be written -----

  function DigitChar(d: int): (c: char)
    requires 0 <= d <= 9
    ensures IsDigit(c) && DigitValue(c) == d
  {
    ('0' as int + d) as char
  }

  function TwoOf(n: int): (s: string)
    requires 0 <= n <= 99
    ensures |s| == 2 && IsDigit(s[0]) && IsDigit(s[1]) && 10 * DigitValue(s[0]) + DigitValue(s[1]) == n
  {
    [DigitChar(n / 10), DigitChar(n % 10)]
  }

  function FourOf(year: int): (s: string)
    requires 0 <= year <= 9999
    ensures |s| == 4 && FourDigits(s) && Year(s) == year
  {
    TwoOf(year / 100) + TwoOf(year % 100)
  }

  /** A day in one of the four spellings, by its month or by its week. */
  function TextOf(spelling: nat, p: Parts): string
    requires spelling < NO_DATE && 0 <= p.year <= 9999 && p.middle <= 99 && 0 <= p.last <= 99
    requires spelling in {WEEK_DASHED, WEEK_COMPACT} ==> p.last <= 9
  {
    var (year, middle, last) := (FourOf(p.year), TwoOf(p.middle), TwoOf(p.last));
    if spelling == DASHED then year + "-" + middle + "-" + last
    else if spelling == WEEK_DASHED then year + "-W" + middle + "-" + [last[1]]
    else if spelling == COMPACT then year + middle + last
    else year + "W" + middle + [last[1]]
  }

  lemma TextOfReadsBack(spelling: nat, p: Parts)
    requires spelling < NO_DATE && 0 <= p.year <= 9999 && p.middle <= 99 && 0 <= p.last <= 99
    requires spelling in {WEEK_DASHED, WEEK_COMPACT} ==> p.last <= 9
    ensures Spelling(TextOf(spelling, p)) == spelling && PartsOf(TextOf(spelling, p)) == p
  {
    var s := TextOf(spelling, p);
    var (year, middle, last) := (FourOf(p.year), TwoOf(p.middle), TwoOf(p.last));
    assert s[..4] == year;
    assert last[0] == '0' <== p.last <= 9;
    if spelling == COMPACT {
      assert s[..8] == s;
    }
    var d := DigitsOf(s);
    assert d == year + middle + last;
    assert d[..4] == year && d[4] == middle[0] && d[5] == middle[1] && d[6] == last[0] && d[7] == last[1];
    assert Year(d) == Year(year);
  }

  lemma CalendarBegins()
    ensures DaysBeforeYear(1) == 0 && DaysBeforeMonth(1, 1) == 0 && FirstMonday(1) == 1
  {
  }

  lemma CalendarEnds()
    ensures DaysBeforeYear(10000) == LAST_DAY
  {
    assert 9999 / 4 == 2499 && 9999 / 100 == 99 && 9999 / 400 == 24;
  }

  lemma WeeksEnd()
    ensures FirstMonday(10000) == LAST_DAY + 3
  {
    CalendarEnds();
    assert Weekday(3652060) == 5;
  }

  lemma NewMonth(year: int, month: nat)
    requires 1 <= month < 12
    ensures OnTheCalendar(year, month, DaysIn(year, month)) && 1 <= year ==> OnTheCalendar(year, month + 1, 1)
    ensures Ordinal(year, month + 1, 1) == Ordinal(year, month, DaysIn(year, month)) + 1
  {
  }

  lemma NewYear(year: int)
    ensures Ordinal(year, 12, 31) == DaysBeforeYear(year + 1)
    ensures Ordinal(year + 1, 1, 1) == DaysBeforeYear(year + 1) + 1
  {
    YearIsFull(year);
    YearLength(year);
  }

  lemma NextDay(p: Parts, lastYear: int) returns (next: Parts)
    requires OnTheCalendar(p.year, p.middle, p.last) && p.year <= lastYear
    requires Ordinal(p.year, p.middle, p.last) < DaysBeforeYear(lastYear + 1)
    ensures OnTheCalendar(next.year, next.middle, next.last) && next.year <= lastYear
    ensures Ordinal(next.year, next.middle, next.last) == Ordinal(p.year, p.middle, p.last) + 1
  {
    if p.last < DaysIn(p.year, p.middle) {
      next := p.(last := p.last + 1);
    } else if p.middle < 12 {
      NewMonth(p.year, p.middle);
      next := Parts(p.year, p.middle + 1, 1);
    } else {
      NewYear(p.year);
      next := Parts(p.year + 1, 1, 1);
    }
  }

  lemma NextWeekDay(p: Parts, lastYear: int) returns (next: Parts)
    requires InTheWeeks(p.year, p.middle, p.last) && p.year <= lastYear
    requires WeekOrdinal(p.year, p.middle, p.last) + 1 < FirstMonday(lastYear + 1)
    ensures InTheWeeks(next.year, next.middle, next.last) && next.year <= lastYear
    ensures WeekOrdinal(next.year, next.middle, next.last) == WeekOrdinal(p.year, p.middle, p.last) + 1
  {
    if p.last < 7 {
      next := p.(last := p.last + 1);
    } else if p.middle < WeeksIn(p.year) {
      next := Parts(p.year, p.middle + 1, 1);
    } else {
      WeekYearLength(p.year);
      next := Parts(p.year + 1, 1, 1);
    }
  }

  lemma {:induction false} DayHasADate(n: int, lastYear: int) returns (date: Parts)
    requires 1 <= lastYear && 1 <= n <= DaysBeforeYear(lastYear + 1)
    ensures OnTheCalendar(date.year, date.middle, date.last) && date.year <= lastYear
    ensures Ordinal(date.year, date.middle, date.last) == n
    decreases n
  {
    if n == 1 {
      CalendarBegins();
      date := Parts(1, 1, 1);
    } else {
      date := DayHasADate(n - 1, lastYear);
      date := NextDay(date, lastYear);
    }
  }

  lemma {:induction false} DayHasAWeek(n: int, lastYear: int) returns (week: Parts)
    requires 1 <= lastYear && 1 <= n < FirstMonday(lastYear + 1)
    ensures InTheWeeks(week.year, week.middle, week.last) && week.year <= lastYear
    ensures WeekOrdinal(week.year, week.middle, week.last) == n
    decreases n
  {
    if n == 1 {
      CalendarBegins();
      week := Parts(1, 1, 1);
    } else {
      week := DayHasAWeek(n - 1, lastYear);
      week := NextWeekDay(week, lastYear);
    }
  }

  /** The reader reads each day from the first of year 1 to the last of year 9999 in all four spellings. */
  lemma EveryDayIsReadInEverySpelling(n: int, spelling: nat) returns (s: string)
    requires 1 <= n <= LAST_DAY && spelling < NO_DATE
    ensures Spelling(s) == spelling && ParseDate(s) == Some(n)
  {
    CalendarEnds();
    WeeksEnd();
    var p: Parts;
    if spelling in {WEEK_DASHED, WEEK_COMPACT} {
      p := DayHasAWeek(n, 9999);
    } else {
      p := DayHasADate(n, 9999);
    }
    s := TextOf(spelling, p);
    TextOfReadsBack(spelling, p);
  }

  /** And nothing else: what it reads is one of those days. */
  lemma ReadTextsAreDays(s: string)
    requires ParseDate(s).Some?
    ensures 1 <= ParseDate(s).value <= LAST_DAY
  {
    var p := PartsOf(s);
    CalendarBegins();
    if ByWeek(s) {
      FirstWeekAfter(p.year);
    } else {
      DayWithinYear(p.year, p.middle, p.last);
      YearsWithin(p.year);
    }
  }

  lemma FirstWeekAfter(year: int)
    requires 1 <= year
    ensures 1 <= FirstMonday(year)
  {
    CalendarBegins();
    if year > 1 {
      WeekYearsAdvance(1, year);
      WeekYearLength(1);
    }
  }

  lemma YearsWithin(year: int)
    requires 1 <= year <= 9999
    ensures 0 <= DaysBeforeYear(year) && DaysBeforeYear(year + 1) <= LAST_DAY
  {
    CalendarBegins();
    CalendarEnds();
    if year > 1 {
      YearsAdvance(1, year);
      YearLength(1);
    }
    YearsAdvance(year, 10000);
  }

  // ----- text order against day order -----

  /** Equal leading digits and a smaller next digit make a smaller reading. */
  lemma ReadingFollowsFirstDifference(a: string, b: string, k: nat)
    requires EightDigits(a) && EightDigits(b)
    requires k < 8 && a[..k] == b[..k] && a[k] < b[k]
    ensures Reading(a) < Reading(b)
  {
    assert forall i | 0 <= i < k :: a[i] == a[..k][i] == b[..k][i] == b[i];
    assert DigitValue(a[k]) < DigitValue(b[k]);
  }

  /** The place of a spelling where the j-th of its eight digits stands. */
  function PlaceOf(spelling: nat, j: nat): nat {
    if j < 4 then j
    else if spelling == DASHED then (if j < 6 then j + 1 else j + 2)
    else if spelling == WEEK_DASHED then j + 2
    else if spelling == COMPACT then j
    else if j < 6 then j + 1 else j
  }

  /** Texts of one spelling whose first j digits agree are the same up to the place of the next. */
  lemma PlacesAgree(a: string, b: string, j: nat)
    requires Spelling(a) == Spelling(b) != NO_DATE && j < 8
    requires DigitsOf(a)[..j] == DigitsOf(b)[..j] && DigitsOf(a)[j] != DigitsOf(b)[j]
    requires PlaceOf(Spelling(a), j) < |a| && PlaceOf(Spelling(a), j) < |b|
    ensures var k := PlaceOf(Spelling(a), j);
            a[..k] == b[..k] && a[k] == DigitsOf(a)[j] && b[k] == DigitsOf(b)[j]
  {
    var p, q, k := DigitsOf(a), DigitsOf(b), PlaceOf(Spelling(a), j);
    assert forall i | 0 <= i < j :: p[i] == p[..j][i] == q[..j][i] == q[i];
    assert forall i | 0 <= i < 4 :: a[i] == p[i] && b[i] == q[i];
    forall i | 0 <= i < k
      ensures a[i] == b[i]
    {
      if Spelling(a) == COMPACT {
        assert a[i] == p[i] && b[i] == q[i];
      }
    }
  }

  /** A week without its day begins every spelling of that week. */
  lemma WeekIsAPrefix(week: string, day: string)
    requires Spelling(week) == Spelling(day) && ByWeek(week) && |week| <= PlaceOf(Spelling(week), 7) < |day|
    requires DigitsOf(week)[..7] == DigitsOf(day)[..7]
    ensures week <= day
  {
    var p, q := DigitsOf(week), DigitsOf(day);
    assert p[0] == p[..7][0] && p[1] == p[..7][1] && p[2] == p[..7][2] && p[3] == p[..7][3];
    assert q[0] == q[..7][0] && q[1] == q[..7][1] && q[2] == q[..7][2] && q[3] == q[..7][3];
    assert p[4] == p[..7][4] && p[5] == p[..7][5] && q[4] == q[..7][4] && q[5] == q[..7][5];
  }

  /** It sorts before them, and is the Monday. */
  lemma MondaySortsFirst(week: string, day: string)
    requires Spelling(week) == Spelling(day) && ByWeek(week) && |week| <= PlaceOf(Spelling(week), 7) < |day|
    requires DigitsOf(week)[..7] == DigitsOf(day)[..7] && ParseDate(day).Some?
    ensures !TextLeq(day, week) && Reading(DigitsOf(week)) <= Reading(DigitsOf(day))
  {
    WeekIsAPrefix(week, day);
    PrefixOrder(week, day);
    MondayReadsFirst(DigitsOf(week), DigitsOf(day));
  }

  lemma MondayReadsFirst(p: string, q: string)
    requires EightDigits(p) && EightDigits(q) && p[..7] == q[..7] && p[7] == '1' && q[6] == '0' && 1 <= Last(q)
    ensures Reading(p) <= Reading(q)
  {
    if p[7] == q[7] {
      assert p == p[..7] + [p[7]] && q == q[..7] + [q[7]];
    } else {
      ReadingFollowsFirstDifference(p, q, 7);
    }
  }

  /** Only a week spelling can leave a digit out, and only its day, which is then 1. */
  lemma OnlyAWeekDayIsOmitted(s: string, j: nat)
    requires Spelling(s) != NO_DATE && j < 8 && |s| <= PlaceOf(Spelling(s), j)
    ensures j >= 6 && ByWeek(s) && DigitsOf(s)[7] == '1' && |s| <= PlaceOf(Spelling(s), 7)
  {
  }

  /** Texts of one spelling that sort as `a` then `b` have readings in that order. */
  lemma SameSpellingOrder(a: string, b: string)
    requires Spelling(a) == Spelling(b) != NO_DATE && ParseDate(a).Some? && ParseDate(b).Some?
    requires TextLeq(a, b)
    ensures Reading(DigitsOf(a)) <= Reading(DigitsOf(b))
  {
    var p, q := DigitsOf(a), DigitsOf(b);
    var j := FirstDifference(p, q);
    assert ByWeek(a) ==> p[6] == q[6] == '0';
    if j < 8 {
      var k := PlaceOf(Spelling(a), j);
      if k < |a| && k < |b| {
        PlacesAgree(a, b, j);
        FirstDifferenceDecides(a, b, k);
        assert a[k] == p[j] && b[k] == q[j];
        ReadingFollowsFirstDifference(p, q, j);
      } else if k < |b| {
        OnlyAWeekDayIsOmitted(a, j);
        MondaySortsFirst(a, b);
      } else {
        OnlyAWeekDayIsOmitted(b, j);
        if k < |a| {
          MondaySortsFirst(b, a);
        } else {
          OnlyAWeekDayIsOmitted(a, j);
        }
      }
    } else {
      assert p == q;
    }
  }

  /** Dashed texts order as their days do. */
  lemma DashedOrder(a: string, b: string)
    requires Dashed(a) && Dashed(b) && ParseDate(a).Some? && ParseDate(b).Some?
    ensures TextLeq(a, b) <==> ParseDate(a).value <= ParseDate(b).value
  {
    ReadingOrder(a, b);
    ReadingOrder(b, a);
    TextOrderIsTotal(a, b);
    if TextLeq(a, b) {
      SameSpellingOrder(a, b);
    }
    if TextLeq(b, a) {
      SameSpellingOrder(b, a);
    }
    if Reading(DigitsOf(a)) == Reading(DigitsOf(b)) {
      ReadingDeterminesDashed(a, b);
      PrefixOrder(a, a);
    }
  }

  lemma ReadingDeterminesDashed(a: string, b: string)
    requires Dashed(a) && Dashed(b) && Reading(DigitsOf(a)) == Reading(DigitsOf(b))
    ensures a == b
  {
    var p, q := DigitsOf(a), DigitsOf(b);
    var j := FirstDifference(p, q);
    if j < 8 {
      DifferentDigits(p, q, j);
    } else {
      assert p == q;
      assert p[0] == q[0] && p[1] == q[1] && p[2] == q[2] && p[3] == q[3];
      assert p[4] == q[4] && p[5] == q[5] && p[6] == q[6] && p[7] == q[7];
    }
  }

  lemma DifferentDigits(p: string, q: string, j: nat)
    requires EightDigits(p) && EightDigits(q) && j < 8 && p[..j] == q[..j] && p[j] != q[j]
    ensures Reading(p) != Reading(q)
  {
    if p[j] < q[j] {
      ReadingFollowsFirstDifference(p, q, j);
    } else {
      ReadingFollowsFirstDifference(q, p, j);
    }
  }

  lemma YearOrder(a: string, b: string)
    requires FourDigits(a) && FourDigits(b)
    ensures Year(a) == Year(b) <==> a[..4] == b[..4]
    ensures Year(a) != Year(b) ==> (TextLeq(a, b) <==> Year(a) < Year(b))
  {
    var k := FirstDifference(a, b);
    assert forall i | 0 <= i < k :: a[i] == a[..k][i] == b[..k][i] == b[i];
    assert forall i | 0 <= i < 4 :: a[..4][i] == a[i] && b[..4][i] == b[i];
    if k < 4 {
      FirstDifferenceDecides(a, b, k);
      assert a[..4][k] != b[..4][k];
      assert DigitValue(a[k]) < DigitValue(b[k]) || DigitValue(b[k]) < DigitValue(a[k]);
    }
  }

  /** Texts of different spellings sort by their years, and within one year by their spellings. */
  lemma DifferentSpellingOrder(a: string, b: string)
    requires Spelling(a) != NO_DATE && Spelling(b) != NO_DATE && Spelling(a) != Spelling(b)
    ensures TextLeq(a, b) <==> if Year(a) == Year(b) then Spelling(a) < Spelling(b) else Year(a) < Year(b)
  {
    YearOrder(a, b);
    if Year(a) == Year(b) {
      assert forall i | 0 <= i < 4 :: a[i] == a[..4][i] == b[..4][i] == b[i];
      assert DigitAt(a, 4) ==> a[4] == a[..8][4];
      assert DigitAt(b, 4) ==> b[4] == b[..8][4];
      if a[4] == b[4] {
        assert a[..5] == b[..5];
        FirstDifferenceDecides(a, b, 5);
      } else {
        FirstDifferenceDecides(a, b, 4);
      }
    }
  }

  // ----- the pairs text order misjudges -----

  /**
   The two texts spell their days differently, and the one that sorts first, by its year and
   then by its spelling, names the later day.
   */
  predicate Misjudged(start: string, end: string)
    requires ParseDate(start).Some? && ParseDate(end).Some?
  {
    && Spelling(start) != Spelling(end)
    && (Year(start) < Year(end) || (Year(start) == Year(end) && Spelling(start) < Spelling(end)))
    && ParseDate(end).value < ParseDate(start).value
  }

  /** Where text order accepts a pair of days that are out of order, over all spellings. */
  lemma MisjudgedExactly(start: string, end: string)
    requires ParseDate(start).Some? && ParseDate(end).Some?
    ensures TextLeq(start, end) && ParseDate(end).value < ParseDate(start).value <==> Misjudged(start, end)
  {
    if Spelling(start) != Spelling(end) {
      DifferentSpellingOrder(start, end);
    } else if TextLeq(start, end) {
      SameSpellingOrder(start, end);
      ReadingOrder(start, end);
    }
  }

  // ----- two misjudged pairs -----

  lemma MarchMisjudged()
    ensures ParseDate("20250301").Some? && ParseDate("2025-06-01").Some?
    ensures Misjudged("2025-06-01", "20250301")
  {
    var march, june := "20250301", "2025-06-01";
    assert march[..8] == march && Compact(march) && DigitsOf(march) == march;
    assert Year(march) == 2025 && Middle(march) == 3 && Last(march) == 1;
    assert Dashed(june) && DigitsOf(june) == "20250601";
    assert Year("20250601") == 2025 && Middle("20250601") == 6 && Last("20250601") == 1;
    ReadingOrder(june, march);
  }

  /** The last day of a long week year lies in the next calendar year. */
  lemma LastDayOfALongYear()
    ensures ParseDate("2026-W53-7") == Some(739984)
  {
    var s := "2026-W53-7";
    assert WeekDashed(s) && !Dashed(s);
    var d := DigitsOf(s);
    assert d == "20265307";
    assert Year(d) == 2026 && Middle(d) == 53 && Last(d) == 7;
    assert DaysBeforeYear(2026) == 739616;
    assert FirstMonday(2026) == 739614 && WeeksIn(2026) == 53;
  }

  lemma SecondOfJanuary()
    ensures ParseDate("2027-01-02") == Some(739983)
  {
    var s := "2027-01-02";
    assert Dashed(s);
    var d := DigitsOf(s);
    assert d == "20270102";
    assert Year(d) == 2027 && Middle(d) == 1 && Last(d) == 2;
    assert DaysBeforeYear(2027) == 739981 && DaysBeforeMonth(2027, 1) == 0;
  }

  lemma NewYearMisjudged()
    ensures ParseDate("2026-W53-7").Some? && ParseDate("2027-01-02").Some?
    ensures Misjudged("2026-W53-7", "2027-01-02")
  {
    LastDayOfALongYear();
    SecondOfJanuary();
    assert WeekDashed("2026-W53-7") && Dashed("2027-01-02");
    assert Year("2026-W53-7") == 2026 && Year("2027-01-02") == 2027;
  }
}
