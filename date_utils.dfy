/**
  Calendar dates as the application uses them: a local date is a civil
  (year, month, day) triple, `formatDateKey` writes it as `YYYY-MM-DD`, and
  `addDays` moves it by whole days through `setDate`, which normalises
  across month and year ends in the proleptic Gregorian calendar.
 */
module DateUtils {
  import opened Strings
  import opened Validation

  /** A local calendar date; `month` is 1-based (`getMonth() + 1`). */
  datatype CivilDate = CivilDate(year: int, month: nat, day: nat)

  predicate IsLeapYear(y: int) {
    y % 4 == 0 && (y % 100 != 0 || y % 400 == 0)
  }

  function DaysInMonth(y: int, m: nat): (n: nat)
    requires 1 <= m <= 12
    ensures 28 <= n <= 31
  {
    if m == 2 then (if IsLeapYear(y) then 29 else 28)
    else if m == 4 || m == 6 || m == 9 || m == 11 then 30
    else 31
  }

  /** A date a `Date` object can denote: a real month and a day within it. */
  predicate ValidDate(d: CivilDate) {
    1 <= d.month <= 12 && 1 <= d.day <= DaysInMonth(d.year, d.month)
  }

  /** `formatDateKey`: the year unpadded, month and day padded to two digits. */
  function FormatDateKey(d: CivilDate): string {
    IntToString(d.year) + "-" + Pad2(d.month) + "-" + Pad2(d.day)
  }

  /** `String(n)` has four characters for a four-digit year. */
  lemma {:induction false} NatToStringLength(n: nat)
    ensures n < 10 ==> |NatToString(n)| == 1
    ensures 10 <= n < 100 ==> |NatToString(n)| == 2
    ensures 100 <= n < 1000 ==> |NatToString(n)| == 3
    ensures 1000 <= n < 10000 ==> |NatToString(n)| == 4
  {
    if n >= 10 {
      NatToStringLength(n / 10);
    }
  }

  /** For a valid date with a four-digit year, the key has ten characters and passes the date-key check. */
  lemma FormatDateKeyValid(d: CivilDate)
    requires ValidDate(d) && 1000 <= d.year <= 9999
    ensures |FormatDateKey(d)| == 10
    ensures IsValidDateKey(FormatDateKey(d))
  {
    NatToStringLength(d.year);
    Pad2Spec(d.month);
    Pad2Spec(d.day);
    var y, m, dd := IntToString(d.year), Pad2(d.month), Pad2(d.day);
    var k := FormatDateKey(d);
    assert k == [y[0], y[1], y[2], y[3], '-', m[0], m[1], '-', dd[0], dd[1]];
  }

  /** `padStart(2, "0")` is injective below 100. */
  lemma Pad2Injective(m: nat, n: nat)
    requires m < 100 && n < 100 && Pad2(m) == Pad2(n)
    ensures m == n
  {
    Pad2Spec(m);
    Pad2Spec(n);
  }

  /** Distinct valid dates have distinct keys, whatever the year. */
  lemma FormatDateKeyInjective(a: CivilDate, b: CivilDate)
    requires ValidDate(a) && ValidDate(b)
    requires FormatDateKey(a) == FormatDateKey(b)
    ensures a == b
  {
    Pad2Spec(a.month);
    Pad2Spec(a.day);
    Pad2Spec(b.month);
    Pad2Spec(b.day);
    var k := FormatDateKey(a);
    var ya, yb := IntToString(a.year), IntToString(b.year);
    assert |k| == |ya| + 6 == |yb| + 6;
    assert k[..|ya|] == ya;
    assert k[..|yb|] == yb;
    IntToStringInjective(a.year, b.year);
    assert k[|ya| + 1..|ya| + 3] == Pad2(a.month) == Pad2(b.month);
    assert k[|ya| + 4..] == Pad2(a.day) == Pad2(b.day);
    Pad2Injective(a.month, b.month);
    Pad2Injective(a.day, b.day);
  }

  /** The day after `d`: `setDate(getDate() + 1)`. */
  function NextDay(d: CivilDate): (e: CivilDate)
    requires ValidDate(d)
    ensures ValidDate(e)
  {
    if d.day < DaysInMonth(d.year, d.month) then CivilDate(d.year, d.month, d.day + 1)
    else if d.month < 12 then CivilDate(d.year, d.month + 1, 1)
    else CivilDate(d.year + 1, 1, 1)
  }

  /** The day before `d`: `setDate(getDate() - 1)`. */
  function PrevDay(d: CivilDate): (e: CivilDate)
    requires ValidDate(d)
    ensures ValidDate(e)
  {
    if d.day > 1 then CivilDate(d.year, d.month, d.day - 1)
    else if d.month > 1 then CivilDate(d.year, d.month - 1, DaysInMonth(d.year, d.month - 1))
    else CivilDate(d.year - 1, 12, 31)
  }

  /** `addDays(d, n)`: a fresh date `n` days later (earlier when `n` is negative); `d` is not touched. */
  function AddDays(d: CivilDate, n: int): (e: CivilDate)
    requires ValidDate(d)
    ensures ValidDate(e)
    decreases if n >= 0 then n else -n
  {
    if n == 0 then d
    else if n > 0 then NextDay(AddDays(d, n - 1))
    else PrevDay(AddDays(d, n + 1))
  }

  /** The days of the years before `y` (counted from year 1), with the Gregorian leap rule. */
  function DaysBeforeYear(y: int): int {
    var p := y - 1;
    365 * p + p / 4 - p / 100 + p / 400
  }

  /** The days of the months of year `y` before month `m`. */
  function DaysBeforeMonth(y: int, m: nat): nat
    requires 1 <= m <= 12
  {
    if m == 1 then 0 else DaysBeforeMonth(y, m - 1) + DaysInMonth(y, m - 1)
  }

  /** An independent day count: consecutive days have consecutive numbers. */
  function DayNumber(d: CivilDate): int
    requires 1 <= d.month <= 12
  {
    DaysBeforeYear(d.year) + DaysBeforeMonth(d.year, d.month) + d.day - 1
  }

  /** A year has 366 days when it is a leap year and 365 otherwise. */
  lemma YearLength(y: int)
    ensures DaysBeforeYear(y + 1) == DaysBeforeYear(y) + (if IsLeapYear(y) then 366 else 365)
  {
    var p := y - 1;
    assert (p + 1) / 4 == p / 4 + (if y % 4 == 0 then 1 else 0);
    assert (p + 1) / 100 == p / 100 + (if y % 100 == 0 then 1 else 0);
    assert (p + 1) / 400 == p / 400 + (if y % 400 == 0 then 1 else 0);
    assert y % 400 == 0 ==> y % 100 == 0;
    assert y % 100 == 0 ==> y % 4 == 0;
  }

  /** The months before December fill all of the year but its 31 last days. */
  lemma DaysBeforeDecember(y: int)
    ensures DaysBeforeMonth(y, 12) + 31 == if IsLeapYear(y) then 366 else 365
  {
    var feb := DaysInMonth(y, 2);
    assert DaysBeforeMonth(y, 2) == 31;
    assert DaysBeforeMonth(y, 3) == 31 + feb;
    assert DaysBeforeMonth(y, 4) == 62 + feb;
    assert DaysBeforeMonth(y, 5) == 92 + feb;
    assert DaysBeforeMonth(y, 6) == 123 + feb;
    assert DaysBeforeMonth(y, 7) == 153 + feb;
    assert DaysBeforeMonth(y, 8) == 184 + feb;
    assert DaysBeforeMonth(y, 9) == 215 + feb;
    assert DaysBeforeMonth(y, 10) == 245 + feb;
    assert DaysBeforeMonth(y, 11) == 276 + feb;
    assert DaysBeforeMonth(y, 12) == 306 + feb;
  }

  /** The next day has a number one greater. */
  lemma NextDaySpec(d: CivilDate)
    requires ValidDate(d)
    ensures DayNumber(NextDay(d)) == DayNumber(d) + 1
  {
    if d.day == DaysInMonth(d.year, d.month) && d.month == 12 {
      YearLength(d.year);
      DaysBeforeDecember(d.year);
    }
  }

  /** The previous day has a number one smaller. */
  lemma PrevDaySpec(d: CivilDate)
    requires ValidDate(d)
    ensures DayNumber(PrevDay(d)) == DayNumber(d) - 1
  {
    if d.day == 1 && d.month == 1 {
      YearLength(d.year - 1);
      DaysBeforeDecember(d.year - 1);
    }
  }

  /** `PrevDay` undoes `NextDay`. */
  lemma PrevNext(d: CivilDate)
    requires ValidDate(d)
    ensures PrevDay(NextDay(d)) == d
  {
    NextDaySpec(d);
  }

  /** `NextDay` undoes `PrevDay`. */
  lemma NextPrev(d: CivilDate)
    requires ValidDate(d)
    ensures NextDay(PrevDay(d)) == d
  {
    PrevDaySpec(d);
  }

  /** `addDays(d, n)` moves the date by exactly `n` days. */
  lemma {:induction false} AddDaysShift(d: CivilDate, n: int)
    requires ValidDate(d)
    ensures DayNumber(AddDays(d, n)) == DayNumber(d) + n
    decreases if n >= 0 then n else -n
  {
    if n > 0 {
      AddDaysShift(d, n - 1);
      NextDaySpec(AddDays(d, n - 1));
    } else if n < 0 {
      AddDaysShift(d, n + 1);
      PrevDaySpec(AddDays(d, n + 1));
    }
  }

  /** One more day after `addDays(d, n)` is `addDays(d, n + 1)`, for every sign of `n`. */
  lemma AddDaysSucc(d: CivilDate, n: int)
    requires ValidDate(d)
    ensures NextDay(AddDays(d, n)) == AddDays(d, n + 1)
  {
    if n < 0 {
      NextPrev(AddDays(d, n + 1));
    }
  }

  /** One day before `addDays(d, n)` is `addDays(d, n - 1)`, for every sign of `n`. */
  lemma AddDaysPred(d: CivilDate, n: int)
    requires ValidDate(d)
    ensures PrevDay(AddDays(d, n)) == AddDays(d, n - 1)
  {
    if n > 0 {
      PrevNext(AddDays(d, n - 1));
    }
  }

  /** Adding `a` days and then `b` days is adding `a + b` days. */
  lemma {:induction false} AddDaysCompose(d: CivilDate, a: int, b: int)
    requires ValidDate(d)
    ensures AddDays(AddDays(d, a), b) == AddDays(d, a + b)
    decreases if b >= 0 then b else -b
  {
    var e := AddDays(d, a);
    if b > 0 {
      AddDaysCompose(d, a, b - 1);
      AddDaysSucc(d, a + b - 1);
    } else if b < 0 {
      AddDaysCompose(d, a, b + 1);
      AddDaysPred(d, a + b + 1);
    }
  }

  /** `isToday(d)` with the current date passed in as `now`. */
  predicate IsToday(d: CivilDate, now: CivilDate) {
    FormatDateKey(d) == FormatDateKey(now)
  }

  /** For valid dates, "today" means the same calendar date. */
  lemma IsTodaySpec(d: CivilDate, now: CivilDate)
    requires ValidDate(d) && ValidDate(now)
    ensures IsToday(d, now) <==> d == now
  {
    if IsToday(d, now) {
      FormatDateKeyInjective(d, now);
    }
  }

  /** Yesterday is never today. */
  lemma YesterdayIsNotToday(now: CivilDate)
    requires ValidDate(now)
    ensures !IsToday(AddDays(now, -1), now)
  {
    AddDaysShift(now, -1);
    IsTodaySpec(AddDays(now, -1), now);
  }

  /** The cases of the unit tests, including a leap day and a year end. */
  lemma DateExamples()
    ensures FormatDateKey(CivilDate(2025, 1, 5)) == "2025-01-05"
    ensures FormatDateKey(CivilDate(2024, 12, 31)) == "2024-12-31"
    ensures AddDays(CivilDate(2025, 1, 1), 5) == CivilDate(2025, 1, 6)
    ensures AddDays(CivilDate(2025, 1, 10), -3) == CivilDate(2025, 1, 7)
    ensures NextDay(CivilDate(2024, 2, 28)) == CivilDate(2024, 2, 29)
    ensures NextDay(CivilDate(2025, 2, 28)) == CivilDate(2025, 3, 1)
    ensures NextDay(CivilDate(2024, 12, 31)) == CivilDate(2025, 1, 1)
    ensures PrevDay(CivilDate(2024, 3, 1)) == CivilDate(2024, 2, 29)
  {
    assert NatToString(2025) == "2025";
    assert NatToString(2024) == "2024";
    assert IsLeapYear(2024) && !IsLeapYear(2025);
  }
}
