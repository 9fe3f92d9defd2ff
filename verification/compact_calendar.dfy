/** The seven-day strip: one cell per day of the last week, each showing a
    weekday letter and the day of month. */
module CompactCalendar {
  import opened JsDates
  import opened JsStrings
  import DayWindows

  /** What a cell shows: the weekday letter and `getDate().toString()`. */
  datatype Label = Label(letter: char, day: string)

  /** `getDaysArray` with the `isSelected` / `isToday` flags of its cells:
      seven days ending today, of which only the last is today. */
  function DayStrip(today: int, selected: int): (r: seq<DayWindows.StripCell>)
    ensures |r| == 7 && r[6].date == today
    ensures forall k :: 0 <= k < 6 ==> r[k + 1].date == r[k].date + 1
    ensures forall k :: 0 <= k < 7 ==> (r[k].isToday <==> k == 6)
    ensures (exists k :: 0 <= k < 7 && r[k].isSelected) <==> today - 7 < selected <= today
  {
    DayWindows.Strip(today, 7, selected)
  }

  /** The label of the cell for day `d`. */
  function CellLabel(d: int): (r: Label)
    ensures r.letter == DayWindows.WeekdayName(d)[0]
    ensures AllDigits(r.day) && ParseDecimal(r.day) == Date(d)
    ensures |r.day| == 1 <==> Date(d) < 10
  {
    DecimalRoundTrip(Date(d));
    Label(DayWindows.WeekdayLetter(d), DecimalString(Date(d)))
  }

  /** Seven consecutive days show seven different weekdays: the strip's
      letters repeat the week once, starting the day after today's weekday. */
  lemma StripCoversWeek(today: int, selected: int, j: int, k: int)
    requires 0 <= j < 7 && 0 <= k < 7
    ensures var r := DayStrip(today, selected);
            Weekday(r[j].date) == Weekday(r[k].date) <==> j == k
  {
    var r := DayStrip(today, selected);
    assert r[j].date == today - 6 + j && r[k].date == today - 6 + k;
  }

  /** Clicking a day makes it the only selected cell. */
  lemma ClickDay(today: int, selected: int, k: int, j: int)
    requires 0 <= k < 7 && 0 <= j < 7
    ensures DayStrip(today, DayStrip(today, selected)[k].date)[j].isSelected <==> j == k
  {
    DayWindows.ClickSelectsCell(today, 7, selected, k, j);
  }
}
