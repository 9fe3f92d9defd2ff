/** The strips of recent days the date pickers show: the last `len` days up
    to and including today, each built from a fresh "now" moved back with
    `setDate(getDate() - i)` and reset to midnight. */
module DayWindows {
  import opened JsDates

  /** The `len` consecutive days ending with `today`, oldest first. */
  function Window(today: int, len: nat): (r: seq<int>)
    ensures |r| == len
    ensures len > 0 ==> r[len - 1] == today
    ensures forall k :: 0 <= k < len - 1 ==> r[k + 1] == r[k] + 1
  {
    seq(len, k => today - (len - 1 - k))
  }

  /** The loop `for (i = len - 1; i >= 0; i--)` that builds the strip. */
  method LastDays(today: int, len: nat) returns (days: seq<int>)
    ensures days == Window(today, len)
  {
    days := [];
    var i: int := len - 1;
    while i >= 0
      invariant -1 <= i < len
      invariant |days| == len - 1 - i
      invariant forall k :: 0 <= k < |days| ==> days[k] == Window(today, len)[k]
      decreases i + 1
    {
      var date := SetDate(today, Date(today) - i);
      days := days + [date];
      i := i - 1;
    }
  }

  /** A day is in the strip exactly when it lies in the last `len` days. */
  lemma WindowMembership(today: int, len: nat, d: int)
    ensures d in Window(today, len) <==> today - len < d <= today
  {
    var w := Window(today, len);
    if today - len < d <= today {
      assert w[d - (today - len + 1)] == d;
    }
  }

  /** No day appears twice, so at most one cell can be the selected date and
      only the last one is today. */
  lemma WindowDistinct(today: int, len: nat, j: int, k: int)
    requires 0 <= j < len && 0 <= k < len
    ensures Window(today, len)[j] == Window(today, len)[k] <==> j == k
    ensures Window(today, len)[k] == today <==> k == len - 1
  {
  }

  /** One cell of a strip: its date and the two highlight flags,
      `isSelected` (same moment as the selected date) and `isToday`. */
  datatype StripCell = StripCell(date: int, isSelected: bool, isToday: bool)

  /** The cells of the strip of the last `len` days for a given selection:
      only the last cell is today, at most one cell is selected, and one is
      exactly when the selected date lies inside the strip. */
  function Strip(today: int, len: nat, selected: int): (r: seq<StripCell>)
    ensures |r| == len
    ensures forall k :: 0 <= k < len ==> r[k].date == Window(today, len)[k]
    ensures forall k :: 0 <= k < len ==> (r[k].isToday <==> k == len - 1)
    ensures forall j, k :: 0 <= j < len && 0 <= k < len && r[j].isSelected && r[k].isSelected ==> j == k
    ensures (exists k :: 0 <= k < len && r[k].isSelected) <==> today - len < selected <= today
  {
    var w := Window(today, len);
    var r := seq(len, k requires 0 <= k < len => StripCell(w[k], w[k] == selected, w[k] == today));
    SelectedCellExists(today, len, selected, r);
    r
  }

  lemma SelectedCellExists(today: int, len: nat, selected: int, r: seq<StripCell>)
    requires |r| == len
    requires forall k :: 0 <= k < len ==> r[k] == StripCell(today - (len - 1 - k), today - (len - 1 - k) == selected, today - (len - 1 - k) == today)
    ensures (exists k :: 0 <= k < len && r[k].isSelected) <==> today - len < selected <= today
  {
    if today - len < selected <= today {
      assert r[selected - (today - len + 1)].isSelected;
    }
  }

  /** `onClick={() => onDateSelect(date)}`: after clicking cell `k` the
      strip shows that cell, and no other, as selected. */
  lemma ClickSelectsCell(today: int, len: nat, selected: int, k: int, j: int)
    requires 0 <= k < len && 0 <= j < len
    ensures Strip(today, len, Strip(today, len, selected)[k].date)[j].isSelected <==> j == k
  {
  }

  /** Letter under a day cell, indexed by `getDay()`. */
  function WeekdayLetter(d: int): (c: char)
    ensures c == WeekdayName(d)[0]
  {
    "SMTWTFS"[Weekday(d)]
  }

  /** Three-letter name under a day cell, indexed by `getDay()`. */
  function WeekdayName(d: int): (r: string)
    ensures |r| == 3
    ensures Weekday(d) == 0 <==> r == "Sun"
    ensures Weekday(d) == 1 <==> r == "Mon"
    ensures Weekday(d) == 2 <==> r == "Tue"
    ensures Weekday(d) == 3 <==> r == "Wed"
    ensures Weekday(d) == 4 <==> r == "Thu"
    ensures Weekday(d) == 5 <==> r == "Fri"
    ensures Weekday(d) == 6 <==> r == "Sat"
  {
    ["Sun", "Mon", "Tue", "Wed", "Thu", "Fri", "Sat"][Weekday(d)]
  }

  /** The names tell the weekdays apart: two days share a name exactly when
      they fall on the same weekday. */
  lemma NamesTellWeekdays(a: int, b: int)
    ensures WeekdayName(a) == WeekdayName(b) <==> Weekday(a) == Weekday(b)
  {
  }

  /** The single letters do not: Saturday and Sunday both show "S", Tuesday
      and Thursday both "T", and every other pair of weekdays differs. */
  lemma LettersTellWeekdays(a: int, b: int)
    ensures WeekdayLetter(a) == WeekdayLetter(b) <==>
              Weekday(a) == Weekday(b)
              || (Weekday(a) in {0, 6} && Weekday(b) in {0, 6})
              || (Weekday(a) in {2, 4} && Weekday(b) in {2, 4})
  {
  }
}
