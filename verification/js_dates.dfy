/** JavaScript `Date` values reduced to whole days.

    A date is the number of days since 1970-01-01 (the epoch of
    `Date.prototype.getTime`), every value being local midnight. The
    proleptic Gregorian calendar gives the `getFullYear`, `getMonth`
    (0..11), `getDate` (1..31) and `getDay` (0 = Sunday) views, and
    `MakeDay` is the normalising constructor `new Date(y, m, d)`, which
    also underlies `setDate` and `setMonth`. */
module JsDates {

  /** A calendar date as the `Date` getters report it. */
  datatype Civil = Civil(year: int, month: int, day: int)

  predicate IsLeapYear(y: int) {
    y % 4 == 0 && (y % 100 != 0 || y % 400 == 0)
  }

  function DaysInYear(y: int): int {
    if IsLeapYear(y) then 366 else 365
  }

  function DaysInMonth(y: int, m: int): (r: int)
    requires 0 <= m < 12
    ensures 28 <= r <= 31
    ensures r == 29 <==> m == 1 && IsLeapYear(y)
  {
    if m == 1 then (if IsLeapYear(y) then 29 else 28)
    else if m == 3 || m == 5 || m == 8 || m == 10 then 30
    else 31
  }

  /** Days of year `y` before the first of month `m`; `m == 12` gives the year. */
  function DaysBeforeMonth(y: int, m: int): int
    requires 0 <= m <= 12
  {
    [0, 31, 59, 90, 120, 151, 181, 212, 243, 273, 304, 334, 365][m]
      + (if m >= 2 && IsLeapYear(y) then 1 else 0)
  }

  predicate ValidCivil(c: Civil) {
    0 <= c.month < 12 && 1 <= c.day <= DaysInMonth(c.year, c.month)
  }

  /** Leap years in [0, y), counted negatively for y < 0. */
  function LeapYearsBefore(y: int): int {
    (y + 3) / 4 - (y + 99) / 100 + (y + 399) / 400
  }

  /** Day number of January 1st of year `y`, year by year from 1970. */
  function DaysBeforeYear(y: int): int
    decreases if y < 1970 then 1970 - y else y - 1970
  {
    if y == 1970 then 0
    else if y > 1970 then DaysBeforeYear(y - 1) + DaysInYear(y - 1)
    else DaysBeforeYear(y + 1) - DaysInYear(y)
  }

  /** `new Date(y, m, d)` at midnight: the month index is normalised into the
      year first (floor division), then the day of month overflows linearly. */
  function MakeDay(y: int, m: int, d: int): int {
    var year := y + m / 12;
    DaysBeforeYear(year) + DaysBeforeMonth(year, m % 12) + d - 1
  }

  /** `MakeDay` on an in-range month index needs no year carry. */
  lemma MakeDayInYear(y: int, m: int, d: int)
    requires 0 <= m < 12
    ensures MakeDay(y, m, d) == DaysBeforeYear(y) + DaysBeforeMonth(y, m) + d - 1
  {
    assert m / 12 == 0 && m % 12 == m;
  }

  /** Month index 12 carries into January of the next year. */
  lemma MakeDayCarry(y: int, d: int)
    ensures MakeDay(y, 12, d) == DaysBeforeYear(y + 1) + d - 1
  {
    assert 12 / 12 == 1 && 12 % 12 == 0;
  }

  /** Month index -1 borrows December of the previous year. */
  lemma MakeDayBorrow(y: int, d: int)
    ensures MakeDay(y, -1, d) == DaysBeforeYear(y - 1) + DaysBeforeMonth(y - 1, 11) + d - 1
  {
    assert -1 / 12 == -1 && -1 % 12 == 11;
  }

  /** `getDay()`: 0 is Sunday; 1970-01-01 was a Thursday. */
  function Weekday(n: int): (r: int)
    ensures 0 <= r < 7
  {
    (n + 4) % 7
  }

  /** `(y + k) / k - (y + k - 1) / k` is 1 exactly when `k` divides `y`. */
  lemma MultipleStep4(y: int)
    ensures (y + 4) / 4 - (y + 3) / 4 == (if y % 4 == 0 then 1 else 0)
  {
    var q, r := y / 4, y % 4;
    assert y + 4 == 4 * (q + 1) + r;
    if r == 0 {
      assert y + 3 == 4 * q + 3;
    } else {
      assert y + 3 == 4 * (q + 1) + (r - 1);
    }
  }

  lemma MultipleStep100(y: int)
    ensures (y + 100) / 100 - (y + 99) / 100 == (if y % 100 == 0 then 1 else 0)
  {
    var q, r := y / 100, y % 100;
    assert y + 100 == 100 * (q + 1) + r;
    if r == 0 {
      assert y + 99 == 100 * q + 99;
    } else {
      assert y + 99 == 100 * (q + 1) + (r - 1);
    }
  }

  lemma MultipleStep400(y: int)
    ensures (y + 400) / 400 - (y + 399) / 400 == (if y % 400 == 0 then 1 else 0)
  {
    var q, r := y / 400, y % 400;
    assert y + 400 == 400 * (q + 1) + r;
    if r == 0 {
      assert y + 399 == 400 * q + 399;
    } else {
      assert y + 399 == 400 * (q + 1) + (r - 1);
    }
  }

  lemma MultipleOf400(y: int)
    requires y % 400 == 0
    ensures y % 100 == 0 && y % 4 == 0
  {
    var k := y / 400;
    assert y == 100 * (4 * k) + 0;
    assert y == 4 * (100 * k) + 0;
  }

  lemma MultipleOf100(y: int)
    requires y % 100 == 0
    ensures y % 4 == 0
  {
    var k := y / 100;
    assert y == 4 * (25 * k) + 0;
  }

  /** Counting leap years below `y + 1` adds one exactly when `y` is a leap year. */
  lemma LeapYearsStep(y: int)
    ensures LeapYearsBefore(y + 1) == LeapYearsBefore(y) + (if IsLeapYear(y) then 1 else 0)
  {
    MultipleStep4(y);
    MultipleStep100(y);
    MultipleStep400(y);
    if y % 400 == 0 {
      MultipleOf400(y);
    } else if y % 100 == 0 {
      MultipleOf100(y);
    }
    assert LeapYearsBefore(y + 1) == (y + 4) / 4 - (y + 100) / 100 + (y + 400) / 400;
  }

  /** Consecutive years are `DaysInYear` apart. */
  lemma YearStep(y: int)
    ensures DaysBeforeYear(y + 1) == DaysBeforeYear(y) + DaysInYear(y)
  {
  }

  /** The year-by-year count agrees with the closed form of section 21.4.1.3
      of ECMA-262 (365 days a year plus the leap days counted by the
      four-, hundred- and four-hundred-year rules). */
  lemma {:induction false} DaysBeforeYearClosedForm(y: int)
    ensures DaysBeforeYear(y) == 365 * (y - 1970) + LeapYearsBefore(y) - LeapYearsBefore(1970)
    decreases if y < 1970 then 1970 - y else y - 1970
  {
    if y > 1970 {
      DaysBeforeYearClosedForm(y - 1);
      LeapYearsStep(y - 1);
    } else if y < 1970 {
      DaysBeforeYearClosedForm(y + 1);
      LeapYearsStep(y);
    }
  }

  lemma {:induction false} DaysBeforeYearMonotonic(a: int, b: int)
    requires a <= b
    ensures DaysBeforeYear(a) + 365 * (b - a) <= DaysBeforeYear(b)
    decreases b - a
  {
    if a < b {
      DaysBeforeYearMonotonic(a, b - 1);
      YearStep(b - 1);
    }
  }

  lemma MonthStep(y: int, m: int)
    requires 0 <= m < 12
    ensures DaysBeforeMonth(y, m + 1) == DaysBeforeMonth(y, m) + DaysInMonth(y, m)
  {
  }

  lemma {:induction false} DaysBeforeMonthMonotonic(y: int, a: int, b: int)
    requires 0 <= a <= b <= 12
    ensures DaysBeforeMonth(y, a) + 28 * (b - a) <= DaysBeforeMonth(y, b)
    decreases b - a
  {
    if a < b {
      DaysBeforeMonthMonotonic(y, a, b - 1);
      MonthStep(y, b - 1);
    }
  }

  /** The year containing day `n`, searched upwards from year `y`. */
  function SearchYearUp(n: int, y: int): (r: int)
    requires DaysBeforeYear(y) <= n
    ensures DaysBeforeYear(r) <= n < DaysBeforeYear(r + 1)
    decreases n - DaysBeforeYear(y)
  {
    YearStep(y);
    if n < DaysBeforeYear(y + 1) then y else SearchYearUp(n, y + 1)
  }

  /** The year containing day `n`, searched downwards from year `y`. */
  function SearchYearDown(n: int, y: int): (r: int)
    requires n < DaysBeforeYear(y + 1)
    ensures DaysBeforeYear(r) <= n < DaysBeforeYear(r + 1)
    decreases DaysBeforeYear(y + 1) - n
  {
    YearStep(y - 1);
    if DaysBeforeYear(y) <= n then y else SearchYearDown(n, y - 1)
  }

  /** The year containing day `n`. */
  function YearOf(n: int): (r: int)
    ensures DaysBeforeYear(r) <= n < DaysBeforeYear(r + 1)
  {
    if 0 <= n then SearchYearUp(n, 1970) else SearchYearDown(n, 1969)
  }

  /** The month of year `y` containing its `r`-th day (0-based), from month `m` on. */
  function SearchMonth(y: int, r: int, m: int): (res: int)
    requires 0 <= m < 12 && DaysBeforeMonth(y, m) <= r < DaysInYear(y)
    ensures 0 <= res < 12
    ensures DaysBeforeMonth(y, res) <= r < DaysBeforeMonth(y, res + 1)
    decreases 12 - m
  {
    if m == 11 || r < DaysBeforeMonth(y, m + 1) then m else SearchMonth(y, r, m + 1)
  }

  /** Day `n` has a valid calendar date: its year is found by `YearOf`, its
      month by `SearchMonth`. */
  lemma CivilExists(n: int)
    ensures exists c :: ValidCivil(c) && MakeDay(c.year, c.month, c.day) == n
  {
    var y := YearOf(n);
    YearStep(y);
    var r := n - DaysBeforeYear(y);
    var m := SearchMonth(y, r, 0);
    MonthStep(y, m);
    var c := Civil(y, m, r - DaysBeforeMonth(y, m) + 1);
    MakeDayInYear(y, m, c.day);
    assert ValidCivil(c) && MakeDay(c.year, c.month, c.day) == n;
  }

  /** The calendar date of day `n`: the valid date that `MakeDay` maps to
      `n`, which is unique (`CivilUnique`). */
  function ToCivil(n: int): (c: Civil)
    ensures ValidCivil(c)
    ensures MakeDay(c.year, c.month, c.day) == n
  {
    CivilExists(n);
    CivilUniqueFor(n);
    var c :| ValidCivil(c) && MakeDay(c.year, c.month, c.day) == n;
    c
  }

  /** `getFullYear()`. */
  function FullYear(n: int): int { ToCivil(n).year }

  /** `getMonth()`. */
  function Month(n: int): int { ToCivil(n).month }

  /** `getDate()`. */
  function Date(n: int): int { ToCivil(n).day }

  lemma YearUnique(n: int, a: int, b: int)
    requires DaysBeforeYear(a) <= n < DaysBeforeYear(a + 1)
    requires DaysBeforeYear(b) <= n < DaysBeforeYear(b + 1)
    ensures a == b
  {
    if a < b {
      DaysBeforeYearMonotonic(a + 1, b);
    } else if b < a {
      DaysBeforeYearMonotonic(b + 1, a);
    }
  }

  lemma MonthUnique(y: int, r: int, a: int, b: int)
    requires 0 <= a < 12 && 0 <= b < 12
    requires DaysBeforeMonth(y, a) <= r < DaysBeforeMonth(y, a + 1)
    requires DaysBeforeMonth(y, b) <= r < DaysBeforeMonth(y, b + 1)
    ensures a == b
  {
    if a < b {
      DaysBeforeMonthMonotonic(y, a + 1, b);
    } else if b < a {
      DaysBeforeMonthMonotonic(y, b + 1, a);
    }
  }

  /** A valid date's day number lies in its year and, within the year, in its month. */
  lemma CivilBounds(c: Civil)
    requires ValidCivil(c)
    ensures var n := MakeDay(c.year, c.month, c.day);
            && DaysBeforeYear(c.year) <= n < DaysBeforeYear(c.year + 1)
            && DaysBeforeMonth(c.year, c.month) <= n - DaysBeforeYear(c.year) < DaysBeforeMonth(c.year, c.month + 1)
  {
    MakeDayInYear(c.year, c.month, c.day);
    MonthStep(c.year, c.month);
    DaysBeforeMonthMonotonic(c.year, c.month + 1, 12);
    YearStep(c.year);
  }

  /** Two valid dates that `MakeDay` maps to the same day are equal. */
  lemma CivilUnique(a: Civil, b: Civil)
    requires ValidCivil(a) && ValidCivil(b)
    requires MakeDay(a.year, a.month, a.day) == MakeDay(b.year, b.month, b.day)
    ensures a == b
  {
    var n := MakeDay(a.year, a.month, a.day);
    CivilBounds(a);
    CivilBounds(b);
    YearUnique(n, a.year, b.year);
    MonthUnique(a.year, n - DaysBeforeYear(a.year), a.month, b.month);
    MakeDayInYear(a.year, a.month, a.day);
    MakeDayInYear(b.year, b.month, b.day);
  }

  lemma CivilUniqueFor(n: int)
    ensures forall a: Civil, b: Civil ::
              (ValidCivil(a) && ValidCivil(b) && MakeDay(a.year, a.month, a.day) == n &&
               MakeDay(b.year, b.month, b.day) == n) ==> a == b
  {
    forall a: Civil, b: Civil | ValidCivil(a) && ValidCivil(b) && MakeDay(a.year, a.month, a.day) == n &&
                                MakeDay(b.year, b.month, b.day) == n
      ensures a == b
    {
      CivilUnique(a, b);
    }
  }

  /** Building a valid calendar date and reading it back gives the same date:
      `ToCivil` and `MakeDay` are inverse on valid dates. */
  lemma CivilRoundTrip(c: Civil)
    requires ValidCivil(c)
    ensures ToCivil(MakeDay(c.year, c.month, c.day)) == c
  {
    CivilUnique(ToCivil(MakeDay(c.year, c.month, c.day)), c);
  }

  /** `setDate(getDate() + k)` moves exactly `k` days. */
  lemma AddDays(n: int, k: int)
    ensures MakeDay(FullYear(n), Month(n), Date(n) + k) == n + k
  {
    var c := ToCivil(n);
    assert FullYear(n) == c.year && Month(n) == c.month && Date(n) == c.day;
    MakeDayInYear(c.year, c.month, c.day);
    MakeDayInYear(c.year, c.month, c.day + k);
  }

  /** `setMonth(getMonth() + 1)` keeps the day of month and overflows, which
      is the same as moving forward by the length of the current month. */
  lemma NextMonthShift(n: int)
    ensures MakeDay(FullYear(n), Month(n) + 1, Date(n)) == n + DaysInMonth(FullYear(n), Month(n))
  {
    var c := ToCivil(n);
    MakeDayInYear(c.year, c.month, c.day);
    if c.month == 11 {
      MakeDayCarry(c.year, c.day);
      YearStep(c.year);
    } else {
      MakeDayInYear(c.year, c.month + 1, c.day);
      MonthStep(c.year, c.month);
    }
  }

  /** Year and month index of the month before month `m` of year `y`. */
  function PreviousMonth(y: int, m: int): (r: (int, int))
    requires 0 <= m < 12
    ensures 0 <= r.1 < 12
    ensures r.0 * 12 + r.1 == y * 12 + m - 1
  {
    if m == 0 then (y - 1, 11) else (y, m - 1)
  }

  /** `setMonth(getMonth() - 1)` moves back by the length of the previous month. */
  lemma PreviousMonthShift(n: int)
    ensures var p := PreviousMonth(FullYear(n), Month(n));
            MakeDay(FullYear(n), Month(n) - 1, Date(n)) == n - DaysInMonth(p.0, p.1)
  {
    var c := ToCivil(n);
    assert FullYear(n) == c.year && Month(n) == c.month && Date(n) == c.day;
    var p := PreviousMonth(c.year, c.month);
    MakeDayInYear(c.year, c.month, c.day);
    if c.month == 0 {
      assert p == (c.year - 1, 11);
      MakeDayBorrow(c.year, c.day);
      YearStep(c.year - 1);
      MonthStep(c.year - 1, 11);
      assert DaysBeforeMonth(c.year - 1, 12) == DaysInYear(c.year - 1);
    } else {
      assert p == (c.year, c.month - 1);
      MakeDayInYear(c.year, c.month - 1, c.day);
      MonthStep(c.year, c.month - 1);
    }
  }

  /** The last day of a month, `new Date(y, m + 1, 0)`, lies `DaysInMonth - 1`
      days after its first, `new Date(y, m, 1)`. */
  lemma MonthBounds(y: int, m: int)
    requires 0 <= m < 12
    ensures MakeDay(y, m + 1, 0) == MakeDay(y, m, 1) + DaysInMonth(y, m) - 1
  {
    MakeDayInYear(y, m, 1);
    if m == 11 {
      MakeDayCarry(y, 0);
      YearStep(y);
      MonthStep(y, 11);
    } else {
      MakeDayInYear(y, m + 1, 0);
      MonthStep(y, m);
    }
  }

  /** Every day from the first to the last of a month reads back as that month. */
  lemma InMonth(y: int, m: int, n: int)
    requires 0 <= m < 12
    requires MakeDay(y, m, 1) <= n < MakeDay(y, m, 1) + DaysInMonth(y, m)
    ensures ToCivil(n) == Civil(y, m, n - MakeDay(y, m, 1) + 1)
  {
    var c := Civil(y, m, n - MakeDay(y, m, 1) + 1);
    CivilRoundTrip(c);
  }

  /** `d.setDate(k)` on a copy of `n`: same year and month, day of month `k`,
      overflowing into neighbouring months. */
  function SetDate(n: int, k: int): (r: int)
    ensures r == n + (k - Date(n))
  {
    AddDays(n, k - Date(n));
    MakeDay(FullYear(n), Month(n), k)
  }

  /** `d.setMonth(k)` on a copy of `n`: the day of month is kept and may
      overflow into the following month. */
  function SetMonth(n: int, k: int): (r: int)
    ensures k == Month(n) + 1 ==> r == n + DaysInMonth(FullYear(n), Month(n))
    ensures k == Month(n) - 1 ==>
              var p := PreviousMonth(FullYear(n), Month(n)); r == n - DaysInMonth(p.0, p.1)
  {
    NextMonthShift(n);
    PreviousMonthShift(n);
    MakeDay(FullYear(n), k, Date(n))
  }

  /** The first of month `m` follows the first of the month before it by that
      month's length. */
  lemma FirstOfMonthStep(y: int, m: int)
    requires 0 <= m < 12
    ensures var p := PreviousMonth(y, m);
            MakeDay(y, m, 1) == MakeDay(p.0, p.1, 1) + DaysInMonth(p.0, p.1)
  {
    MakeDayInYear(y, m, 1);
    if m == 0 {
      MakeDayInYear(y - 1, 11, 1);
      YearStep(y - 1);
      MonthStep(y - 1, 11);
    } else {
      MakeDayInYear(y, m - 1, 1);
      MonthStep(y, m - 1);
    }
  }

  /** Month indexes outside 0..11 are carried into the year first. */
  lemma MakeDayNormalises(y: int, m: int, d: int)
    ensures 0 <= m % 12 < 12
    ensures MakeDay(y, m, d) == MakeDay(y + m / 12, m % 12, d)
  {
    MakeDayInYear(y + m / 12, m % 12, d);
  }

  /** Year and month index of the month after month `m` of year `y`. */
  function NextMonth(y: int, m: int): (r: (int, int))
    requires 0 <= m < 12
    ensures 0 <= r.1 < 12
    ensures r.0 * 12 + r.1 == y * 12 + m + 1
  {
    if m == 11 then (y + 1, 0) else (y, m + 1)
  }

  /** The first of the next month, however it is written, follows the first
      of this month by this month's length. */
  lemma NextMonthStep(y: int, m: int)
    requires 0 <= m < 12
    ensures var q := NextMonth(y, m);
            MakeDay(y, m + 1, 1) == MakeDay(q.0, q.1, 1) == MakeDay(y, m, 1) + DaysInMonth(y, m)
  {
    MonthBounds(y, m);
    MakeDayNormalises(y, m + 1, 1);
    var q := NextMonth(y, m);
    assert (m + 1) / 12 == q.0 - y && (m + 1) % 12 == q.1;
  }

  /** `new Date(d.getFullYear(), d.getMonth(), 1)`: the first day of the
      month `n` lies in. */
  function StartOfMonth(n: int): (r: int)
    ensures r <= n < r + DaysInMonth(FullYear(n), Month(n))
    ensures n == r + Date(n) - 1
    ensures ToCivil(r) == Civil(FullYear(n), Month(n), 1)
  {
    var c := ToCivil(n);
    MakeDayInYear(c.year, c.month, c.day);
    MakeDayInYear(c.year, c.month, 1);
    CivilRoundTrip(Civil(c.year, c.month, 1));
    MakeDay(c.year, c.month, 1)
  }

  /** `new Date(y, m + 1, 1)`: the first of the following month. */
  function FirstOfNextMonth(y: int, m: int): (r: int)
    requires 0 <= m < 12
    ensures var q := NextMonth(y, m); ToCivil(r) == Civil(q.0, q.1, 1)
    ensures r == MakeDay(y, m, 1) + DaysInMonth(y, m)
  {
    var q := NextMonth(y, m);
    NextMonthStep(y, m);
    CivilRoundTrip(Civil(q.0, q.1, 1));
    MakeDay(y, m + 1, 1)
  }

  lemma PreviousFirst(y: int, m: int)
    requires 0 <= m < 12
    ensures var p := PreviousMonth(y, m); MakeDay(y, m - 1, 1) == MakeDay(p.0, p.1, 1)
  {
    var p := PreviousMonth(y, m);
    if m == 0 {
      MakeDayBorrow(y, 1);
    } else {
      MakeDayInYear(y, m - 1, 1);
    }
    MakeDayInYear(p.0, p.1, 1);
  }

  /** `new Date(y, m - 1, 1)`: the first of the preceding month. */
  function FirstOfPreviousMonth(y: int, m: int): (r: int)
    requires 0 <= m < 12
    ensures var p := PreviousMonth(y, m); ToCivil(r) == Civil(p.0, p.1, 1)
    ensures var p := PreviousMonth(y, m); r + DaysInMonth(p.0, p.1) == MakeDay(y, m, 1)
  {
    var p := PreviousMonth(y, m);
    PreviousFirst(y, m);
    FirstOfMonthStep(y, m);
    CivilRoundTrip(Civil(p.0, p.1, 1));
    MakeDay(y, m - 1, 1)
  }

  /** Months counted from year 0, so that "the next month" is `+ 1`. */
  function MonthIndex(n: int): int {
    FullYear(n) * 12 + Month(n)
  }

  lemma IndexUnique(ya: int, ma: int, yb: int, mb: int)
    requires 0 <= ma < 12 && 0 <= mb < 12
    requires ya * 12 + ma == yb * 12 + mb
    ensures ya == yb && ma == mb
  {
  }

  /** Two firsts of a month with the same month index are the same day. */
  lemma FirstsEqual(a: int, b: int)
    requires Date(a) == 1 && Date(b) == 1
    requires MonthIndex(a) == MonthIndex(b)
    ensures a == b
  {
    var ca, cb := ToCivil(a), ToCivil(b);
    IndexUnique(ca.year, ca.month, cb.year, cb.month);
    assert ca == cb;
  }

  /** A day less than a week before the first of a month, or less than a week
      after its last, lies in a neighbouring month. */
  lemma NearMonth(y: int, m: int, d: int)
    requires 0 <= m < 12
    requires MakeDay(y, m, 1) - 7 < d < MakeDay(y, m, 1) + DaysInMonth(y, m) + 7
    ensures Month(d) == m <==> MakeDay(y, m, 1) <= d < MakeDay(y, m, 1) + DaysInMonth(y, m)
  {
    var first := MakeDay(y, m, 1);
    if d < first {
      var p := PreviousMonth(y, m);
      var f := FirstOfPreviousMonth(y, m);
      MakeDayInYear(p.0, p.1, 1);
      InMonth(p.0, p.1, d);
    } else if d < first + DaysInMonth(y, m) {
      InMonth(y, m, d);
    } else {
      var q := NextMonth(y, m);
      var f := FirstOfNextMonth(y, m);
      MakeDayInYear(q.0, q.1, 1);
      InMonth(q.0, q.1, d);
    }
  }

  /** A day lies in the month starting at `MakeDay(y, m, 1)` exactly when it
      reads back as month `m` of year `y`. */
  lemma SameMonthIff(y: int, m: int, d: int)
    requires 0 <= m < 12
    ensures (FullYear(d) == y && Month(d) == m) <==>
              MakeDay(y, m, 1) <= d < MakeDay(y, m, 1) + DaysInMonth(y, m)
  {
    if MakeDay(y, m, 1) <= d < MakeDay(y, m, 1) + DaysInMonth(y, m) {
      InMonth(y, m, d);
    }
    if FullYear(d) == y && Month(d) == m {
      var s := StartOfMonth(d);
    }
  }

  /** `d.getDay()` steps back by one with the day, except from Sunday. */
  lemma WeekdayStepBack(d: int)
    requires Weekday(d) != 0
    ensures Weekday(d - 1) == Weekday(d) - 1
  {
    var q := (d + 4) / 7;
    assert d + 4 == 7 * q + Weekday(d);
    assert d - 1 + 4 == 7 * q + (Weekday(d) - 1);
  }

  /** Going back `getDay()` days from any day lands on a Sunday. */
  lemma SundayBefore(f: int)
    ensures Weekday(f - Weekday(f)) == 0
  {
    var q := (f + 4) / 7;
    assert f + 4 == 7 * q + Weekday(f);
    assert f - Weekday(f) + 4 == 7 * q;
  }

  /** The day `getDay()` days before `d` is a Sunday. */
  lemma SundayOf(d: int, r: int)
    requires r == d - Weekday(d)
    ensures Weekday(r) == 0
  {
    SundayBefore(d);
  }

  /** Whole weeks after a Sunday is a Sunday again, and the day before is a Saturday. */
  lemma WeeksAfterSunday(start: int, weeks: int)
    requires Weekday(start) == 0
    ensures Weekday(start + 7 * weeks - 1) == 6
    ensures Weekday(start + 7 * weeks) == 0
  {
    var q := (start + 4) / 7;
    assert start + 4 == 7 * q;
    assert start + 7 * weeks + 4 == 7 * (q + weeks);
    assert start + 7 * weeks - 1 + 4 == 7 * (q + weeks - 1) + 6;
  }

  /** Two Sundays lie a whole number of weeks apart. */
  lemma SundaysApart(a: int, b: int)
    requires Weekday(a) == 0 && Weekday(b) == 0
    ensures (b - a) % 7 == 0
  {
    var p, q := (a + 4) / 7, (b + 4) / 7;
    assert a + 4 == 7 * p && b + 4 == 7 * q;
    assert b - a == 7 * (q - p);
  }

  /** `new Date(y, mm, 1)` for any month index `mm`: the first of the month
      `mm` months after January of `y`. */
  lemma FirstOfMonthIndex(y: int, mm: int)
    ensures Date(MakeDay(y, mm, 1)) == 1
    ensures MonthIndex(MakeDay(y, mm, 1)) == y * 12 + mm
  {
    MakeDayNormalises(y, mm, 1);
    CivilRoundTrip(Civil(y + mm / 12, mm % 12, 1));
  }

  /** `d.setDate(1)` goes back to the first of `d`'s month. */
  lemma SetDateToFirst(d: int)
    ensures SetDate(d, 1) == StartOfMonth(d)
    ensures Date(SetDate(d, 1)) == 1 && MonthIndex(SetDate(d, 1)) == MonthIndex(d)
  {
  }

  /** Two dates read back the same month and year (`getMonth()` and
      `getFullYear()` both equal). */
  predicate SameMonth(a: int, b: int) {
    Month(a) == Month(b) && FullYear(a) == FullYear(b)
  }

  /** Same month and year is the same month index. */
  lemma SameMonthIndex(a: int, b: int)
    ensures SameMonth(a, b) <==> MonthIndex(a) == MonthIndex(b)
  {
    var ca, cb := ToCivil(a), ToCivil(b);
    if MonthIndex(a) == MonthIndex(b) {
      IndexUnique(ca.year, ca.month, cb.year, cb.month);
    }
  }

  /** A day of month every month has survives a `setMonth` step back. */
  lemma PreviousMonthKeepsDay(n: int, r: int)
    requires Date(n) <= 28
    requires r == MakeDay(FullYear(n), Month(n) - 1, Date(n))
    ensures var p := PreviousMonth(FullYear(n), Month(n));
            FullYear(r) == p.0 && Month(r) == p.1 && Date(r) == Date(n)
  {
    var y, m, d := FullYear(n), Month(n), Date(n);
    var p := PreviousMonth(y, m);
    if m == 0 {
      assert (m - 1) / 12 == -1 && (m - 1) % 12 == 11;
    } else {
      assert (m - 1) / 12 == 0 && (m - 1) % 12 == m - 1;
    }
    MakeDayNormalises(y, m - 1, d);
    CivilRoundTrip(Civil(p.0, p.1, d));
  }

  /** Up to the 28th, `setMonth(getMonth() + 1)` lands on the same day of the
      following month. */
  lemma NextMonthKeepsDay(n: int, r: int)
    requires Date(n) <= 28
    requires r == MakeDay(FullYear(n), Month(n) + 1, Date(n))
    ensures MonthIndex(r) == MonthIndex(n) + 1 && Date(r) == Date(n)
  {
    var y, m, d := FullYear(n), Month(n), Date(n);
    if m == 11 {
      assert (m + 1) / 12 == 1 && (m + 1) % 12 == 0;
    } else {
      assert (m + 1) / 12 == 0 && (m + 1) % 12 == m + 1;
    }
    MakeDayNormalises(y, m + 1, d);
    CivilRoundTrip(Civil(y + (m + 1) / 12, (m + 1) % 12, d));
  }

  /** `setMonth(mm)` keeps the day of month, so it lands in month index
      `mm` of the year, or in the month after it when that month is too short
      for the day; up to the 28th it always lands on the same day of `mm`. */
  lemma SetMonthOverflow(n: int, mm: int)
    ensures var r := MakeDay(FullYear(n), mm, Date(n));
            MonthIndex(r) == FullYear(n) * 12 + mm || MonthIndex(r) == FullYear(n) * 12 + mm + 1
    ensures var r := MakeDay(FullYear(n), mm, Date(n));
            Date(n) <= 28 ==> MonthIndex(r) == FullYear(n) * 12 + mm && Date(r) == Date(n)
  {
    var y, d := FullYear(n), Date(n);
    var r := MakeDay(y, mm, d);
    MakeDayNormalises(y, mm, d);
    var y2, m2 := y + mm / 12, mm % 12;
    assert y2 * 12 + m2 == y * 12 + mm;
    MakeDayInYear(y2, m2, d);
    MakeDayInYear(y2, m2, 1);
    if d <= DaysInMonth(y2, m2) {
      InMonth(y2, m2, r);
    } else {
      var next := FirstOfNextMonth(y2, m2);
      var q := NextMonth(y2, m2);
      InMonth(q.0, q.1, r);
    }
  }
}
