/** The volume-competition calendar: a daily month grid, six weekly cards,
    twelve monthly cards, month navigation and the selection handler. The
    random competition figures shown on each card are left out; the
    calendar arithmetic is modelled on day numbers (see `JsDates`). */
module VolumeCompetitionCalendar {
  import opened Base
  import opened JsDates

  datatype Period = Daily | Weekly | Monthly

  /** The component's own state; `currentMonth` is any day of the month the
      daily grid shows. */
  datatype CalendarState = CalendarState(period: Period, currentMonth: int, isCollapsed: bool)

  // ---------------------------------------------------------------- daily grid

  /** `new Date(year, month, 1)` for the displayed month. */
  function FirstDay(cm: int): (r: int)
    ensures r == StartOfMonth(cm)
  {
    MakeDay(FullYear(cm), Month(cm), 1)
  }

  /** `new Date(year, month + 1, 0)`: day 0 of the next month is the last of this one. */
  function LastDay(cm: int): (r: int)
    ensures r == FirstDay(cm) + DaysInMonth(FullYear(cm), Month(cm)) - 1
  {
    MonthBounds(FullYear(cm), Month(cm));
    MakeDay(FullYear(cm), Month(cm) + 1, 0)
  }

  /** `d.setDate(d.getDate() - d.getDay())`: the Sunday on or before `d`. */
  function SundayOnOrBefore(d: int): (r: int)
    ensures Weekday(r) == 0
    ensures d - 7 < r <= d
  {
    var r := SetDate(d, Date(d) - Weekday(d));
    SundayOf(d, r);
    r
  }

  /** The first cell of the daily grid. */
  function GridStart(cm: int): (r: int)
    ensures Weekday(r) == 0
    ensures FirstDay(cm) - 7 < r <= FirstDay(cm)
  {
    SundayOnOrBefore(FirstDay(cm))
  }

  /** The days from Sunday `start` up to the first Sunday after `last`. */
  function GridBetween(start: int, last: int): (r: seq<int>)
    requires Weekday(start) == 0 && start <= last
    ensures |r| == 7 * ((last - start) / 7 + 1)
    ensures forall k :: 0 <= k < |r| ==> r[k] == start + k
    ensures Weekday(r[|r| - 1]) == 6
    ensures last <= r[|r| - 1] < last + 7
  {
    var weeks := (last - start) / 7 + 1;
    WeeksAfterSunday(start, weeks);
    seq(7 * weeks, k => start + k)
  }

  /** The month's days span four to six weeks of the grid. */
  lemma GridSpan(cm: int)
    ensures 27 <= LastDay(cm) - GridStart(cm) <= 36
    ensures 28 <= 7 * ((LastDay(cm) - GridStart(cm)) / 7 + 1) <= 42
    ensures (7 * ((LastDay(cm) - GridStart(cm)) / 7 + 1)) % 7 == 0
  {
    var x := LastDay(cm) - GridStart(cm);
    GridWeeks(x);
  }

  lemma GridWeeks(x: int)
    requires 27 <= x <= 36
    ensures 28 <= 7 * (x / 7 + 1) <= 42
    ensures (7 * (x / 7 + 1)) % 7 == 0
  {
  }

  /** The cells of the daily grid: whole weeks from Sunday to Saturday that
      cover the displayed month, with no week lying wholly outside it. */
  function CalendarGrid(cm: int): (r: seq<int>)
    ensures |r| % 7 == 0 && 28 <= |r| <= 42
    ensures Weekday(r[0]) == 0 && Weekday(r[|r| - 1]) == 6
    ensures forall k :: 0 <= k < |r| - 1 ==> r[k + 1] == r[k] + 1
    ensures FirstDay(cm) - 7 < r[0] <= FirstDay(cm)
    ensures LastDay(cm) <= r[|r| - 1] < LastDay(cm) + 7
  {
    GridSpan(cm);
    GridBetween(GridStart(cm), LastDay(cm))
  }

  /** The `while (currentDate <= lastDay || currentDate.getDay() !== 0)` loop
      of `getCalendarDays`, from the Sunday `startDate`. */
  method GridDays(startDate: int, lastDay: int) returns (days: seq<int>)
    requires Weekday(startDate) == 0 && startDate <= lastDay
    ensures days == GridBetween(startDate, lastDay)
  {
    ghost var end := startDate + 7 * ((lastDay - startDate) / 7 + 1);
    WeeksAfterSunday(startDate, (lastDay - startDate) / 7 + 1);
    days := [];
    var currentDate := startDate;
    while currentDate <= lastDay || Weekday(currentDate) != 0
      invariant startDate <= currentDate <= end
      invariant |days| == currentDate - startDate
      invariant forall k :: 0 <= k < |days| ==> days[k] == startDate + k
      decreases end - currentDate
    {
      days := days + [currentDate];
      currentDate := SetDate(currentDate, Date(currentDate) + 1);
    }
    SundaysApart(startDate, currentDate);
  }

  /** `getCalendarDays`. */
  method CalendarDays(cm: int) returns (days: seq<int>)
    ensures days == CalendarGrid(cm)
  {
    var year, month := FullYear(cm), Month(cm);
    var firstDay := MakeDay(year, month, 1);
    var lastDay := LastDay(cm);
    var startDate := SetDate(firstDay, Date(firstDay) - Weekday(firstDay));
    assert startDate == GridStart(cm);
    days := GridDays(startDate, lastDay);
  }

  /** `isCurrentMonth` of a grid cell; only the month index is compared. */
  predicate IsCurrentMonthCell(d: int, cm: int) {
    Month(d) == Month(cm)
  }

  /** A grid cell is enabled exactly when it is a day of the displayed month:
      the leading and trailing cells belong to the neighbouring months. */
  lemma CellEnabledIffInMonth(cm: int, k: int)
    requires 0 <= k < |CalendarGrid(cm)|
    ensures IsCurrentMonthCell(CalendarGrid(cm)[k], cm) <==>
              FirstDay(cm) <= CalendarGrid(cm)[k] <= LastDay(cm)
  {
    var grid := CalendarGrid(cm);
    assert grid[k] == grid[0] + k by {
      GridIndex(grid, k);
    }
    NearMonth(FullYear(cm), Month(cm), grid[k]);
  }

  lemma {:induction false} GridIndex(grid: seq<int>, k: int)
    requires 0 <= k < |grid|
    requires forall j :: 0 <= j < |grid| - 1 ==> grid[j + 1] == grid[j] + 1
    ensures grid[k] == grid[0] + k
  {
    if k > 0 {
      GridIndex(grid, k - 1);
    }
  }

  // ------------------------------------------------------------- weekly cards

  /** The `while (currentDate.getDay() !== 0)` loop of `getWeeklyData`. */
  method BackToSunday(d: int) returns (r: int)
    ensures r == SundayOnOrBefore(d)
  {
    r := d;
    while Weekday(r) != 0
      invariant Weekday(r) <= Weekday(d)
      invariant r == d - (Weekday(d) - Weekday(r))
      decreases Weekday(r)
    {
      WeekdayStepBack(r);
      r := SetDate(r, Date(r) - 1);
    }
  }

  /** The `for (let i = 0; i < 6; i++)` loop of `getWeeklyData`. */
  method WeekStarts(sunday: int) returns (weeks: seq<int>)
    requires Weekday(sunday) == 0
    ensures |weeks| == 6
    ensures forall i :: 0 <= i < 6 ==> weeks[i] == sunday + 7 * i && Weekday(weeks[i]) == 0
  {
    weeks := [];
    var i := 0;
    while i < 6
      invariant 0 <= i <= 6 && |weeks| == i
      invariant forall j :: 0 <= j < i ==> weeks[j] == sunday + 7 * j && Weekday(weeks[j]) == 0
    {
      var weekStart := SetDate(sunday, Date(sunday) + i * 7);
      WeeksAfterSunday(sunday, i);
      weeks := weeks + [weekStart];
      i := i + 1;
    }
  }

  /** Row `i` of the daily grid starts `7 * i` days after its first cell. */
  lemma GridRow(cm: int, i: int)
    requires 0 <= i < |CalendarGrid(cm)| / 7
    ensures CalendarGrid(cm)[7 * i] == GridStart(cm) + 7 * i
  {
    GridSpan(cm);
  }

  /** `getWeeklyData`: back from the first of the month to a Sunday, then six
      week starts a week apart, the first rows of the daily grid. */
  method WeeklyData(cm: int) returns (weeks: seq<int>)
    ensures |weeks| == 6
    ensures weeks[0] == GridStart(cm)
    ensures forall i :: 0 <= i < 6 ==> weeks[i] == weeks[0] + 7 * i && Weekday(weeks[i]) == 0
    ensures forall i :: 0 <= i < |CalendarGrid(cm)| / 7 ==> weeks[i] == CalendarGrid(cm)[7 * i]
  {
    var currentDate := SetDate(cm, 1);
    assert currentDate == FirstDay(cm);
    currentDate := BackToSunday(currentDate);
    weeks := WeekStarts(currentDate);
    forall i | 0 <= i < |CalendarGrid(cm)| / 7
      ensures weeks[i] == CalendarGrid(cm)[7 * i]
    {
      GridRow(cm, i);
    }
  }

  /** `isSelectedWeek` / `isCurrentWeek`: `d` lies between the card's start and
      `weekEnd`, six days later. */
  predicate WeekContains(weekStart: int, d: int) {
    weekStart <= d <= SetDate(weekStart, Date(weekStart) + 6)
  }

  /** Week card `i` is highlighted for `d` exactly when `d` falls in the `i`-th
      week of the strip, so at most one card is highlighted. */
  lemma SelectedWeekCard(cm: int, i: int, d: int)
    requires 0 <= i < 6
    ensures WeekContains(GridStart(cm) + 7 * i, d) <==>
              GridStart(cm) <= d && (d - GridStart(cm)) / 7 == i
  {
    var s := GridStart(cm);
    WeekSlot(s, i, d);
  }

  lemma WeekSlot(s: int, i: int, d: int)
    requires 0 <= i
    ensures s + 7 * i <= d <= s + 7 * i + 6 <==> s <= d && (d - s) / 7 == i
  {
    var q, r := (d - s) / 7, (d - s) % 7;
    assert d - s == 7 * q + r && 0 <= r < 7;
    if s + 7 * i <= d <= s + 7 * i + 6 {
      assert 7 * (q - i) <= 6 - r && 7 * (i - q) <= r;
    }
  }

  // ------------------------------------------------------------ monthly cards

  lemma FirstsOfYear(y: int)
    ensures forall k :: 0 <= k < 12 ==> ToCivil(MakeDay(y, k, 1)) == Civil(y, k, 1)
  {
    forall k | 0 <= k < 12
      ensures ToCivil(MakeDay(y, k, 1)) == Civil(y, k, 1)
    {
      CivilRoundTrip(Civil(y, k, 1));
    }
  }

  /** `getMonthlyData`: the first of every month of the displayed year. */
  function MonthlyData(cm: int): (r: seq<int>)
    ensures |r| == 12
    ensures forall k :: 0 <= k < 12 ==> ToCivil(r[k]) == Civil(FullYear(cm), k, 1)
  {
    FirstsOfYear(FullYear(cm));
    seq(12, k => MakeDay(FullYear(cm), k, 1))
  }

  /** A monthly card is highlighted exactly for the days of its month. */
  lemma MonthCardSelected(cm: int, k: int, d: int)
    requires 0 <= k < 12
    ensures var card := MonthlyData(cm)[k];
            SameMonth(d, card) <==> card <= d < card + DaysInMonth(FullYear(cm), k)
  {
    SameMonthIff(FullYear(cm), k, d);
  }

  // ------------------------------------------------------- selection and labels

  /** Competition flags of a card: active once its date has arrived, current
      on the day itself. */
  datatype Status = Status(isActive: bool, isCurrent: bool)

  function CompetitionStatus(date: int, today: int): (r: Status)
    ensures r.isActive <==> date <= today
    ensures r.isCurrent <==> date == today
    ensures r.isCurrent ==> r.isActive
    ensures r.isActive && !r.isCurrent <==> date < today
  {
    Status(date <= today, date == today)
  }

  /** Over a run of consecutive days, such as the daily grid: the active
      cards are a prefix, at most one card is current, and it is the one
      whose offset from the first card is today's. */
  lemma {:induction false} RunStatuses(days: seq<int>, today: int)
    requires forall k :: 0 <= k < |days| - 1 ==> days[k + 1] == days[k] + 1
    ensures forall i, j :: 0 <= i < j < |days| && CompetitionStatus(days[j], today).isActive ==>
              CompetitionStatus(days[i], today).isActive
    ensures forall i, j :: 0 <= i < j < |days| ==>
              !(CompetitionStatus(days[i], today).isCurrent && CompetitionStatus(days[j], today).isCurrent)
    ensures forall k :: 0 <= k < |days| ==> (CompetitionStatus(days[k], today).isCurrent <==> k == today - days[0])
  {
    forall k | 0 <= k < |days|
      ensures days[k] == days[0] + k
    {
      GridIndex(days, k);
    }
  }

  /** The daily grid's cards: active up to today, and a current card exactly
      when today lies in the grid. */
  lemma GridStatuses(cm: int, today: int)
    ensures var g := CalendarGrid(cm);
            forall i, j :: 0 <= i < j < |g| && CompetitionStatus(g[j], today).isActive ==>
              CompetitionStatus(g[i], today).isActive
    ensures var g := CalendarGrid(cm);
            forall i, j :: 0 <= i < j < |g| ==>
              !(CompetitionStatus(g[i], today).isCurrent && CompetitionStatus(g[j], today).isCurrent)
    ensures var g := CalendarGrid(cm);
            (exists k :: 0 <= k < |g| && CompetitionStatus(g[k], today).isCurrent) <==> g[0] <= today <= g[|g| - 1]
  {
    var g := CalendarGrid(cm);
    RunStatuses(g, today);
    if g[0] <= today <= g[|g| - 1] {
      GridIndex(g, |g| - 1);
      var k := today - g[0];
      assert CompetitionStatus(g[k], today).isCurrent;
    }
  }

  /** What `handleDateSelect` hands to its callbacks. */
  datatype Effects = Effects(selected: int, fetch: Option<(int, Period)>)

  /** `handleDateSelect`: report the date, collapse the calendar, and request
      the data for the current period when a fetch callback is given. */
  function HandleDateSelect(s: CalendarState, date: int, hasFetchCallback: bool): (r: (CalendarState, Effects))
    ensures r.0.period == s.period && r.0.currentMonth == s.currentMonth && r.0.isCollapsed
    ensures r.1.selected == date
    ensures r.1.fetch.Some? <==> hasFetchCallback
    ensures hasFetchCallback ==> r.1.fetch.value == (date, s.period)
  {
    (s.(isCollapsed := true), Effects(date, if hasFetchCallback then Some((date, s.period)) else None))
  }

  /** A click on a cell of the daily grid: cells outside the displayed month
      are disabled and do nothing. */
  function ClickDay(s: CalendarState, date: int, hasFetchCallback: bool): Option<(CalendarState, Effects)> {
    if IsCurrentMonthCell(date, s.currentMonth) then Some(HandleDateSelect(s, date, hasFetchCallback)) else None
  }

  /** Clicking grid cell `k` selects a day of the displayed month, or nothing
      when the cell is a neighbouring month's day. */
  lemma GridClickSelectsDisplayedMonth(s: CalendarState, k: int, hasFetchCallback: bool)
    requires 0 <= k < |CalendarGrid(s.currentMonth)|
    ensures var d := CalendarGrid(s.currentMonth)[k];
            ClickDay(s, d, hasFetchCallback).Some? <==> FirstDay(s.currentMonth) <= d <= LastDay(s.currentMonth)
    ensures var d := CalendarGrid(s.currentMonth)[k];
            ClickDay(s, d, hasFetchCallback).Some? ==>
              var r := ClickDay(s, d, hasFetchCallback).value;
              r.1.selected == d && SameMonth(d, s.currentMonth) && r.0.isCollapsed
  {
    var d := CalendarGrid(s.currentMonth)[k];
    CellEnabledIffInMonth(s.currentMonth, k);
    if FirstDay(s.currentMonth) <= d <= LastDay(s.currentMonth) {
      InMonth(FullYear(s.currentMonth), Month(s.currentMonth), d);
    }
  }

  /** `Math.ceil(selectedDate.getDate() / 7)` in the "Week n" label. */
  function WeekOfMonth(d: int): (r: int)
    ensures 1 <= r <= 5
    ensures 7 * (r - 1) < Date(d) <= 7 * r
  {
    (Date(d) + 6) / 7
  }

  // ---------------------------------------------------------------- navigation

  /** `goToNextMonth` as written: `setMonth(getMonth() + 1)` keeps the day of
      month, so from the 29th to the 31st it can overflow past the next month. */
  function NextMonthAsWritten(cm: int): (r: int)
    ensures r == cm + DaysInMonth(FullYear(cm), Month(cm))
  {
    SetMonth(cm, Month(cm) + 1)
  }

  /** `goToPreviousMonth` as written: `setMonth(getMonth() - 1)`. */
  function PreviousMonthAsWritten(cm: int): (r: int)
    ensures var p := PreviousMonth(FullYear(cm), Month(cm)); r == cm - DaysInMonth(p.0, p.1)
  {
    SetMonth(cm, Month(cm) - 1)
  }

  /** From January 31st of any year the next-month button shows March
      (March 3rd in 2025). */
  lemma NextMonthAsWrittenSkipsFebruary(y: int)
    ensures Month(MakeDay(y, 0, 31)) == 0
    ensures Month(NextMonthAsWritten(MakeDay(y, 0, 31))) == 2
  {
    var n := MakeDay(y, 0, 31);
    CivilRoundTrip(Civil(y, 0, 31));
    assert FullYear(n) == y && Month(n) == 0;
    var r := NextMonthAsWritten(n);
    assert r == n + 31;
    MakeDayInYear(y, 0, 31);
    MakeDayInYear(y, 2, 1);
    InMonth(y, 2, r);
  }

  /** From March 31st of any year the previous-month button stays in March
      (March 3rd in 2025). */
  lemma PreviousMonthAsWrittenStaysInMarch(y: int)
    ensures Month(MakeDay(y, 2, 31)) == 2
    ensures Month(PreviousMonthAsWritten(MakeDay(y, 2, 31))) == 2
  {
    var n := MakeDay(y, 2, 31);
    CivilRoundTrip(Civil(y, 2, 31));
    MakeDayInYear(y, 2, 31);
    MakeDayInYear(y, 2, 1);
    var p := PreviousMonth(y, 2);
    assert p == (y, 1);
    InMonth(y, 2, n - DaysInMonth(y, 1));
  }

  /** Next month, corrected: go to the first of the following month. */
  function GoToNextMonth(cm: int): (r: int)
    ensures MonthIndex(r) == MonthIndex(cm) + 1
    ensures Date(r) == 1
  {
    FirstOfNextMonth(FullYear(cm), Month(cm))
  }

  /** Previous month, corrected: go to the first of the preceding month. */
  function GoToPreviousMonth(cm: int): (r: int)
    ensures MonthIndex(r) == MonthIndex(cm) - 1
    ensures Date(r) == 1
  {
    FirstOfPreviousMonth(FullYear(cm), Month(cm))
  }

  /** Forward then back (or back then forward) returns to the first of the
      displayed month. */
  lemma NavigationRoundTrip(cm: int)
    ensures GoToPreviousMonth(GoToNextMonth(cm)) == StartOfMonth(cm)
    ensures GoToNextMonth(GoToPreviousMonth(cm)) == StartOfMonth(cm)
  {
    var s := StartOfMonth(cm);
    FirstsEqual(GoToPreviousMonth(GoToNextMonth(cm)), s);
    FirstsEqual(GoToNextMonth(GoToPreviousMonth(cm)), s);
  }

  /** User actions on the calendar header. */
  datatype Event = PreviousMonthClicked | NextMonthClicked | PeriodChosen(p: Period) | CollapseToggled

  /** The header controls as the page wires them: the month buttons call
      `goToPreviousMonth` and `goToNextMonth` as written, so they move by a
      month's length and keep the day of month. */
  function Step(s: CalendarState, e: Event): (r: CalendarState)
    ensures e.NextMonthClicked? ==>
              r.currentMonth == s.currentMonth + DaysInMonth(FullYear(s.currentMonth), Month(s.currentMonth))
    ensures e.PreviousMonthClicked? ==>
              var p := PreviousMonth(FullYear(s.currentMonth), Month(s.currentMonth));
              r.currentMonth == s.currentMonth - DaysInMonth(p.0, p.1)
    ensures !e.CollapseToggled? ==> r.isCollapsed == s.isCollapsed
    ensures !e.PeriodChosen? ==> r.period == s.period
    ensures e.PeriodChosen? ==> r.period == e.p
    ensures !(e.PreviousMonthClicked? || e.NextMonthClicked?) ==> r.currentMonth == s.currentMonth
  {
    match e
    case PreviousMonthClicked => s.(currentMonth := PreviousMonthAsWritten(s.currentMonth))
    case NextMonthClicked => s.(currentMonth := NextMonthAsWritten(s.currentMonth))
    case PeriodChosen(p) => s.(period := p)
    case CollapseToggled => s.(isCollapsed := !s.isCollapsed)
  }

  /** Up to the 28th the month buttons move exactly one month and keep the
      day; from January 31st `NextMonthAsWrittenSkipsFebruary` shows Next
      landing two months on. */
  lemma MonthButtonsBefore29th(s: CalendarState)
    requires Date(s.currentMonth) <= 28
    ensures var r := Step(s, NextMonthClicked).currentMonth;
            MonthIndex(r) == MonthIndex(s.currentMonth) + 1 && Date(r) == Date(s.currentMonth)
    ensures var r := Step(s, PreviousMonthClicked).currentMonth;
            MonthIndex(r) == MonthIndex(s.currentMonth) - 1 && Date(r) == Date(s.currentMonth)
  {
    var cm := s.currentMonth;
    NextMonthKeepsDay(cm, SetMonth(cm, Month(cm) + 1));
    var r := SetMonth(cm, Month(cm) - 1);
    PreviousMonthKeepsDay(cm, r);
  }

  /** The header with the corrected month buttons: each goes to the first of
      the neighbouring month. */
  function CorrectedStep(s: CalendarState, e: Event): (r: CalendarState)
    ensures e.NextMonthClicked? ==> MonthIndex(r.currentMonth) == MonthIndex(s.currentMonth) + 1
    ensures e.PreviousMonthClicked? ==> MonthIndex(r.currentMonth) == MonthIndex(s.currentMonth) - 1
    ensures (e.NextMonthClicked? || e.PreviousMonthClicked?) ==> Date(r.currentMonth) == 1
    ensures !(e.NextMonthClicked? || e.PreviousMonthClicked?) ==> r == Step(s, e)
  {
    match e
    case PreviousMonthClicked => s.(currentMonth := GoToPreviousMonth(s.currentMonth))
    case NextMonthClicked => s.(currentMonth := GoToNextMonth(s.currentMonth))
    case _ => Step(s, e)
  }

  /** The collapse toggle is an involution and choosing a period twice is
      choosing it once. */
  lemma StepInvolutions(s: CalendarState, p: Period)
    ensures Step(Step(s, CollapseToggled), CollapseToggled) == s
    ensures Step(Step(s, PeriodChosen(p)), PeriodChosen(p)) == Step(s, PeriodChosen(p))
  {
  }
}
