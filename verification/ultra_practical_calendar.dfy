/** The compact picker with a 28-day strip ("week" mode), six month cards
    ("month" mode) and previous/next buttons that never go past today. */
module UltraPracticalCalendar {
  import opened Base
  import opened JsDates
  import DayWindows

  datatype ViewMode = WeekMode | MonthMode

  // ------------------------------------------------------------ month cards

  /** `getMonthlyView` as written: for `i` from 5 down to 0, a fresh "now"
      gets `setMonth(getMonth() - i)` and only then `setDate(1)`, so a day of
      month the target month lacks overflows into the month after it. */
  function MonthlyViewAsWritten(today: int): (r: seq<int>)
    ensures |r| == 6
    ensures Date(r[0]) == 1 && Date(r[1]) == 1 && Date(r[2]) == 1
    ensures Date(r[3]) == 1 && Date(r[4]) == 1 && Date(r[5]) == 1
    ensures r[5] == StartOfMonth(today)
  {
    assert SetMonth(today, Month(today)) == today;
    FirstOfSameMonth(today, StartOfMonth(today));
    [CardAsWritten(today, 5), CardAsWritten(today, 4), CardAsWritten(today, 3),
     CardAsWritten(today, 2), CardAsWritten(today, 1), CardAsWritten(today, 0)]
  }

  /** One iteration of that loop: `i` months back from today, then the 1st. */
  function CardAsWritten(today: int, i: int): (r: int)
    ensures Date(r) == 1
  {
    FirstOf(SetMonth(today, Month(today) - i))
  }

  /** `d.setDate(1)`. */
  function FirstOf(d: int): (r: int)
    ensures Date(r) == 1 && MonthIndex(r) == MonthIndex(d)
  {
    SetDateToFirst(d);
    SetDate(d, 1)
  }

  /** Two days of the same month have the same first. */
  lemma FirstOfSameMonth(a: int, b: int)
    requires MonthIndex(a) == MonthIndex(b)
    ensures FirstOf(a) == FirstOf(b)
  {
    FirstsEqual(FirstOf(a), FirstOf(b));
  }

  /** `setMonth(m)` on the 31st of month `m0` of year `y`. */
  lemma SetMonthOn31st(y: int, m0: int, m: int)
    requires 0 <= m0 < 12 && DaysInMonth(y, m0) == 31
    ensures SetMonth(MakeDay(y, m0, 31), m) == MakeDay(y, m, 31)
  {
    CivilRoundTrip(Civil(y, m0, 31));
  }

  /** The 31st of a 30-day month `m` is the 1st of month `m + 1`. */
  lemma Overflow31st(y: int, m: int)
    requires 0 <= m < 11 && DaysInMonth(y, m) == 30
    ensures MonthIndex(MakeDay(y, m, 31)) == MonthIndex(MakeDay(y, m + 1, 31))
  {
    MakeDayInYear(y, m, 31);
    MakeDayInYear(y, m + 1, 1);
    MonthStep(y, m);
    FirstOfMonthIndex(y, m + 1);
    CivilRoundTrip(Civil(y, m + 1, 31));
    FirstOfMonthIndex(y, m + 1);
    assert MakeDay(y, m, 31) == MakeDay(y, m + 1, 1);
    InMonth(y, m + 1, MakeDay(y, m + 1, 31));
  }

  /** On October 31st of any year the as-written cards read May, July, July,
      August, October, October: June and September are missing. */
  lemma MonthlyViewAsWrittenRepeatsMonths(y: int)
    ensures var r := MonthlyViewAsWritten(MakeDay(y, 9, 31));
            r[1] == r[2] && r[4] == r[5]
  {
    var today := MakeDay(y, 9, 31);
    CivilRoundTrip(Civil(y, 9, 31));
    SetMonthOn31st(y, 9, 5);
    SetMonthOn31st(y, 9, 6);
    SetMonthOn31st(y, 9, 8);
    SetMonthOn31st(y, 9, 9);
    Overflow31st(y, 5);
    Overflow31st(y, 8);
    FirstOfSameMonth(MakeDay(y, 5, 31), MakeDay(y, 6, 31));
    FirstOfSameMonth(MakeDay(y, 8, 31), MakeDay(y, 9, 31));
  }

  /** The evidently intended month cards: the 1st of each of the five
      previous months and of the current one, oldest first. */
  function MonthlyView(today: int): (r: seq<int>)
    ensures |r| == 6
  {
    seq(6, k => MakeDay(FullYear(today), Month(today) - (5 - k), 1))
  }

  /** Card `k` is the 1st of the month `5 - k` months before today's. */
  lemma MonthlyViewCard(today: int, k: int)
    requires 0 <= k < 6
    ensures Date(MonthlyView(today)[k]) == 1
    ensures MonthIndex(MonthlyView(today)[k]) == MonthIndex(today) - (5 - k)
  {
    var y, mm := FullYear(today), Month(today) - (5 - k);
    assert MonthlyView(today)[k] == MakeDay(y, mm, 1);
    FirstOfMonthIndex(y, mm);
  }

  /** The six cards are six different months, and the last one is the
      current month: a card is current exactly when it is the last one. */
  lemma MonthlyViewEndsThisMonth(today: int, j: int, k: int)
    requires 0 <= j < 6 && 0 <= k < 6
    ensures MonthlyView(today)[j] == MonthlyView(today)[k] <==> j == k
    ensures SameMonth(today, MonthlyView(today)[k]) <==> k == 5
    ensures MonthlyView(today)[5] == StartOfMonth(today)
  {
    MonthlyViewCard(today, j);
    MonthlyViewCard(today, k);
    MonthlyViewCard(today, 5);
    SameMonthIndex(today, MonthlyView(today)[k]);
    var s := StartOfMonth(today);
    SetDateToFirst(today);
    FirstsEqual(MonthlyView(today)[5], s);
  }

  /** `isSelectedMonth` of a card: it is the selected date's month. */
  lemma MonthCardSelectedIff(today: int, selected: int, k: int)
    requires 0 <= k < 6
    ensures SameMonth(selected, MonthlyView(today)[k]) <==>
              MonthIndex(selected) == MonthIndex(today) - (5 - k)
  {
    MonthlyViewCard(today, k);
    SameMonthIndex(selected, MonthlyView(today)[k]);
  }

  /** The as-written card `i` months back is the first of that month, or of
      the month after it when today's day of month overflows; up to the 28th
      it is always that month. */
  lemma CardAsWrittenMonth(today: int, i: int)
    ensures var c := CardAsWritten(today, i);
            MonthIndex(c) == MonthIndex(today) - i || MonthIndex(c) == MonthIndex(today) - i + 1
    ensures Date(today) <= 28 ==> MonthIndex(CardAsWritten(today, i)) == MonthIndex(today) - i
  {
    var d := SetMonth(today, Month(today) - i);
    assert d == MakeDay(FullYear(today), Month(today) - i, Date(today));
    SetMonthOverflow(today, Month(today) - i);
    assert MonthIndex(CardAsWritten(today, i)) == MonthIndex(d);
  }

  /** Up to the 28th the as-written card `i` months back is the intended
      card `5 - i`. */
  lemma CardAsWrittenBefore29th(today: int, i: int)
    requires Date(today) <= 28 && 0 <= i < 6
    ensures CardAsWritten(today, i) == MonthlyView(today)[5 - i]
  {
    CardAsWrittenMonth(today, i);
    MonthlyViewCard(today, 5 - i);
    FirstsEqual(CardAsWritten(today, i), MonthlyView(today)[5 - i]);
  }

  /** `isSelectedMonth` of the rendered card `5 - i`, `CardAsWritten(today, i)`:
      the selection lies in the month `i` months back, or in the month after
      it from the 29th on; up to the 28th exactly in the month `i` months
      back. */
  lemma MonthCardAsWrittenSelected(today: int, selected: int, i: int)
    ensures SameMonth(selected, CardAsWritten(today, i)) ==>
              MonthIndex(selected) == MonthIndex(today) - i || MonthIndex(selected) == MonthIndex(today) - i + 1
    ensures Date(today) <= 28 ==>
              (SameMonth(selected, CardAsWritten(today, i)) <==> MonthIndex(selected) == MonthIndex(today) - i)
  {
    CardAsWrittenMonth(today, i);
    SameMonthIndex(selected, CardAsWritten(today, i));
  }

  // ------------------------------------------------------------ week strip

  /** `getWeeklyView` with the `isSelected` / `isToday` flags of its cells:
      28 days ending today. */
  function WeekStrip(today: int, selected: int): (r: seq<DayWindows.StripCell>)
    ensures |r| == 28 && r[27].date == today && r[27].isToday
    ensures forall k :: 0 <= k < 27 ==> r[k + 1].date == r[k].date + 1
    ensures (exists k :: 0 <= k < 28 && r[k].isSelected) <==> today - 28 < selected <= today
  {
    DayWindows.Strip(today, 28, selected)
  }

  // ------------------------------------------------------------ navigation

  /** `navigatePrevious`: a week or one `setMonth` step back, always applied. */
  function NavigatePrevious(selected: int, mode: ViewMode): (r: int)
    ensures mode == WeekMode ==> r == selected - 7
    ensures mode == MonthMode ==>
              var p := PreviousMonth(FullYear(selected), Month(selected));
              r == selected - DaysInMonth(p.0, p.1)
    ensures selected - 31 <= r <= selected - 7
  {
    match mode
    case WeekMode => SetDate(selected, Date(selected) - 7)
    case MonthMode => SetMonth(selected, Month(selected) - 1)
  }

  /** The date `navigateNext` and `canNavigateNext` both compute: a week or
      one `setMonth` step forward. */
  function NextCandidate(selected: int, mode: ViewMode): (r: int)
    ensures mode == WeekMode ==> r == selected + 7
    ensures mode == MonthMode ==> r == selected + DaysInMonth(FullYear(selected), Month(selected))
    ensures selected + 7 <= r <= selected + 31
  {
    match mode
    case WeekMode => SetDate(selected, Date(selected) + 7)
    case MonthMode => SetMonth(selected, Month(selected) + 1)
  }

  /** `navigateNext`: the date passed to `onDateSelect`, or `None` when the
      step would pass today and nothing is selected. */
  function NavigateNext(selected: int, today: int, mode: ViewMode): (r: Option<int>)
    ensures r.Some? ==> selected < r.value <= today
    ensures r.Some? <==> NextCandidate(selected, mode) <= today
    ensures r.Some? ==> r.value == NextCandidate(selected, mode)
  {
    var next := NextCandidate(selected, mode);
    if next <= today then Some(next) else None
  }

  /** `canNavigateNext`, which drives the Next button's `disabled`. */
  function CanNavigateNext(selected: int, today: int, mode: ViewMode): (r: bool)
    ensures r ==> selected + 7 <= today
    ensures mode == WeekMode ==> (r <==> selected + 7 <= today)
  {
    NextCandidate(selected, mode) <= today
  }

  /** The Next button is disabled exactly when a click would do nothing. */
  lemma NextDisabledIffNoOp(selected: int, today: int, mode: ViewMode)
    ensures !CanNavigateNext(selected, today, mode) <==> NavigateNext(selected, today, mode).None?
  {
  }

  /** In week mode Next undoes Previous from any selection up to today. */
  lemma WeekPreviousThenNext(selected: int, today: int)
    requires selected <= today
    ensures NavigateNext(NavigatePrevious(selected, WeekMode), today, WeekMode) == Some(selected)
  {
  }

  /** In month mode it does so only from days every month has: from the 31st
      of March one month back is the 3rd of March (2nd in a leap year) and
      one forward from there is April 3rd or 2nd. */
  lemma MonthPreviousThenNext(selected: int, today: int)
    requires Date(selected) <= 28 && selected <= today
    ensures NavigateNext(NavigatePrevious(selected, MonthMode), today, MonthMode) == Some(selected)
  {
    var previous := NavigatePrevious(selected, MonthMode);
    PreviousMonthKeepsDay(selected, previous);
  }
}
