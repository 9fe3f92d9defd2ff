/** The 30-day strip with two-digit day and month labels and buttons that
    jump 30 days back or, if that does not pass today, 30 days forward. */
module LeaderboardCalendar {
  import opened Base
  import opened JsDates
  import opened JsStrings
  import DayWindows

  /** `getDaysArray` with the `isSelected` / `isToday` flags of its cells:
      30 days ending today. */
  function DayStrip(today: int, selected: int): (r: seq<DayWindows.StripCell>)
    ensures |r| == 30 && r[29].date == today && r[29].isToday
    ensures forall k :: 0 <= k < 29 ==> r[k + 1].date == r[k].date + 1
    ensures (exists k :: 0 <= k < 30 && r[k].isSelected) <==> today - 30 < selected <= today
  {
    DayWindows.Strip(today, 30, selected)
  }

  /** Clicking a day makes it the only selected cell. */
  lemma ClickDay(today: int, selected: int, k: int, j: int)
    requires 0 <= k < 30 && 0 <= j < 30
    ensures DayStrip(today, DayStrip(today, selected)[k].date)[j].isSelected <==> j == k
  {
    DayWindows.ClickSelectsCell(today, 30, selected, k, j);
  }

  /** The Previous button: `setDate(getDate() - 30)`, always applied. */
  function Previous(selected: int): (r: int)
    ensures r == selected - 30
  {
    SetDate(selected, Date(selected) - 30)
  }

  /** The Next button's handler: the date passed to `onDateSelect`, or `None`
      when 30 days on would pass today. */
  function Next(selected: int, today: int): (r: Option<int>)
    ensures r.Some? <==> selected + 30 <= today
    ensures r.Some? ==> r.value == selected + 30
  {
    var next := SetDate(selected, Date(selected) + 30);
    if next <= today then Some(next) else None
  }

  /** The Next button's `disabled` flag. */
  function NextDisabled(selected: int, today: int): bool {
    selected >= today
  }

  /** A disabled Next button could not have moved the selection anyway. */
  lemma DisabledNextDoesNothing(selected: int, today: int)
    requires NextDisabled(selected, today)
    ensures Next(selected, today).None?
  {
  }

  /** The converse fails: the button is enabled for every selection before
      today, yet a click does nothing for the 29 days before today. */
  lemma EnabledNextMayDoNothing(selected: int, today: int)
    ensures !NextDisabled(selected, today) && Next(selected, today).None? <==>
              today - 30 < selected < today
  {
  }

  /** Next undoes Previous from any selection up to today. */
  lemma PreviousThenNext(selected: int, today: int)
    requires selected <= today
    ensures Next(Previous(selected), today) == Some(selected)
  {
  }

  /** `n.toString().padStart(2, '0')` for a number below 100. */
  function TwoDigits(n: nat): (r: string)
    requires n < 100
    ensures |r| == 2 && AllDigits(r)
    ensures ParseDecimal(r) == n
  {
    var s := DecimalString(n);
    var r := PadStart(s, 2, '0');
    PaddedValue(s, r);
    DecimalRoundTrip(n);
    r
  }

  /** Zero-padding on the left keeps the value of a digit string. */
  lemma PaddedValue(s: string, r: string)
    requires AllDigits(s) && |s| <= |r|
    requires r[|r| - |s|..] == s
    requires forall i :: 0 <= i < |r| - |s| ==> r[i] == '0'
    ensures AllDigits(r) && ParseDecimal(r) == ParseDecimal(s)
  {
    assert r == r[..|r| - |s|] + s;
    LeadingZerosIgnored(r[..|r| - |s|], s);
  }

  /** Day label of a cell: `getDate()` as two digits, "01" to "31". */
  function DayLabel(d: int): (r: string)
    ensures |r| == 2 && AllDigits(r)
    ensures ParseDecimal(r) == Date(d) && 1 <= ParseDecimal(r) <= 31
  {
    TwoDigits(Date(d))
  }

  /** Month label of a cell: `getMonth() + 1` as two digits, "01" to "12". */
  function MonthLabel(d: int): (r: string)
    ensures |r| == 2 && AllDigits(r)
    ensures ParseDecimal(r) == Month(d) + 1 && 1 <= ParseDecimal(r) <= 12
  {
    TwoDigits(Month(d) + 1)
  }

  /** Labels tell days apart within a month: two days of one month with the
      same day label are the same day. */
  lemma DayLabelIdentifies(a: int, b: int)
    requires SameMonth(a, b) && DayLabel(a) == DayLabel(b)
    ensures a == b
  {
    var ca, cb := ToCivil(a), ToCivil(b);
    assert ca == cb;
  }
}
