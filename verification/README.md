# chzleague dashboard: a Dafny model of its view logic

chzleague is a React dashboard for a trading competition on the Chiliz
chain. It shows a leaderboard of traders, a token list, recent swaps and
several date pickers. The components hold little logic beyond what they
render, and this project models that logic as pure Dafny functions over
immutable records:

- **Calendars.** These are the volume-competition calendar, the
  week/month picker, the 30-day leaderboard strip and the compact 7-day
  strip. A date is a whole day number counted from 1970-01-01, as
  `Date.getTime()` is after `setHours(0, 0, 0, 0)`. `JsDates` gives the
  `Date` constructor's normalisation (`new Date(y, m, d)` with `m` or `d`
  out of range), the getters (`getFullYear`, `getMonth`, `getDate`,
  `getDay`) and the setters (`setDate`, `setMonth`) their JavaScript
  meaning on the proleptic Gregorian calendar, for any year and without
  the "Invalid Date" bound, as the Left out section says. The model proves:
  - what the generated grids, strips and cards contain;
  - when a cell is selected, today's or disabled;
  - what each navigation button does. In the week/month picker the Next
    button is disabled exactly when a click would do nothing. The 30-day
    strip disables Next only from today on, so between 30 days back and
    today the button is enabled but a click does nothing.
- **Search, filter and sort.** These are the leaderboard search in `App`
  and the searches of both token lists. Matching is a case-insensitive
  substring test. The model proves that each filter keeps exactly the
  matching items, in their input order. `TokenList` also orders the kept
  tokens by a chosen metric, and the model proves the result is a sorted
  permutation of the filtered tokens.
- **Small helpers.**
  - address shortening, with `slice` semantics;
  - the relative-time label of a swap;
  - buy/sell classification and price change;
  - the rank and tier colour tables;
  - progress and split-bar widths;
  - the day and month labels;
  - the name shown for a trader.
- **State machines.** Each network request is an input: the outcome it
  ended in (`Base.FetchOutcome`). The machines are:
  - theme initialisation, persistence and toggling;
  - the token provider's loading and first-token selection;
  - the swap-list and transaction-list loading states and their views;
  - the advanced-filter panel;
  - the leaderboard card's expand toggle.

One source comment and the code disagree, and the model follows the code.
The comment at `src/contexts/ThemeContext.tsx:72` says the first token is
selected "if no token is selected". The code selects it after every
successful non-empty load, even when another token was already selected.
`ThemeContext.RefreshResetsSelection` states that behaviour.

## Model

| member | source | states |
|---|---|---|
| JsStrings.LowerChar | src/App.tsx:169 | an upper-case ASCII letter becomes its lower-case letter, 32 code points on, and every other character is left as it is; the result is never upper-case |
| JsStrings.ToLower | src/App.tsx:169 | `toLowerCase` keeps the length and lowers each character on its own, so no upper-case ASCII letter is left |
| JsStrings.ToLowerIdempotent | src/App.tsx:169 | lowering an already lowered string changes nothing |
| JsStrings.ToLowerOfLower | src/App.tsx:169 | a string without upper-case letters is its own lower-case form |
| JsStrings.SameUpToCase | src/App.tsx:169 | two strings of one length whose characters differ at most in case (definition; `SameUpToCaseIff` states what it means) |
| JsStrings.SameUpToCaseIff | src/App.tsx:169 | two strings lower to the same string exactly when they differ at most in the case of their letters |
| JsStrings.Includes | src/App.tsx:169 | `includes` is true exactly when the term occurs at some position of the string |
| JsStrings.EmptyIncluded | src/App.tsx:169 | the empty term is included in every string |
| JsStrings.SelfIncluded | src/App.tsx:169 | every string includes itself |
| JsStrings.SliceIndex | src/components/GetRecentSwaps.tsx:84 | a `slice` index is clamped into [0, length], and a negative index counts back from the end |
| JsStrings.Slice | src/components/GetRecentSwaps.tsx:84 | `slice(start, end)` has as many characters as the normalised end exceeds the normalised start (none when they cross), and character `i` is the source's character at start + `i` |
| JsStrings.SliceSplit | src/components/GetRecentSwaps.tsx:84 | two adjacent slices joined are the slice spanning both |
| JsStrings.SliceFrom | src/components/GetRecentSwaps.tsx:84 | `slice(start)` is the suffix from the normalised start index |
| JsStrings.DecimalString | src/components/LeaderboardCalendar.tsx:98 | `toString` of a non-negative integer is all digits, has no leading zero, and has one digit exactly below 10 |
| JsStrings.DecimalRoundTrip | src/components/LeaderboardCalendar.tsx:98 | reading the printed digits back gives the number again |
| JsStrings.PadStart | src/components/LeaderboardCalendar.tsx:98 | `padStart` reaches the requested length, ends with the original string, and fills the front with the pad character |
| JsStrings.LeadingZerosIgnored | src/components/LeaderboardCalendar.tsx:98 | zeros put in front of a digit string do not change its value |
| Base.JsDivide | src/components/SwapDetails.tsx:159 | division is exact for a non-zero divisor; for a zero divisor the result is non-finite, and it is NaN exactly when the dividend is 0 too |
| Base.HttpErrorMessage | src/components/GetRecentSwaps.tsx:46 | the thrown message starts with "HTTP error! status: " and the status reads back from the rest |
| Base.FailureMessage | src/components/GetRecentSwaps.tsx:52 | the stored error is the HTTP message, the thrown Error's message, or the fallback for a thrown non-Error |
| ListOps.Filter | src/App.tsx:168-172 | `filter` keeps every element that passes, and only such elements, and never grows the list |
| ListOps.FilterIsSubsequence | src/App.tsx:168-172 | the kept elements appear in their input order: the result embeds into the input by increasing positions |
| ListOps.FilterKeepsAll | src/App.tsx:168-172 | a filter that every element passes returns its input |
| ListOps.FilterLength | src/App.tsx:292 | the length of a filtered list is the number of elements that pass |
| ListOps.FilterCongruent | src/App.tsx:168-172 | two predicates that agree on every element filter a list alike |
| ListOps.Insert | src/components/TokenList.tsx:29-40 | inserting into a list ordered by descending key keeps it ordered and adds exactly the one element |
| ListOps.Sort | src/components/TokenList.tsx:29-40 | sorting by `key(b) - key(a)` yields a non-increasing permutation of the input |
| ListOps.SortOfSorted | src/components/TokenList.tsx:29-40 | a list already in descending key order is left exactly as it is |
| ListOps.SortIdempotent | src/components/TokenList.tsx:29-40 | sorting twice by one key is sorting once |
| JsDates.DaysInMonth | src/components/VolumeCompetitionCalendar.tsx:88 | a month has 28 to 31 days, and 29 exactly for February of a leap year |
| JsDates.MakeDayInYear | src/components/VolumeCompetitionCalendar.tsx:87 | `new Date(y, m, d)` for a month in 0..11 is day `d` counted from the first of that month |
| JsDates.MakeDay | src/components/VolumeCompetitionCalendar.tsx:87-88 | `new Date(y, m, d)`: the day number of day `d` of month `m` of year `y`, with `m` and `d` allowed out of range (definition; its meaning is stated by `MakeDayInYear`, `MakeDayNormalises` and `CivilRoundTrip`) |
| JsDates.FullYear | src/components/VolumeCompetitionCalendar.tsx:84 | `getFullYear()`: the year of the unique civil date of a day number (definition; see `ToCivil` and `CivilUnique`) |
| JsDates.Month | src/components/VolumeCompetitionCalendar.tsx:85 | `getMonth()`: the month, 0..11, of that civil date (definition; see `ToCivil`) |
| JsDates.Date | src/components/VolumeCompetitionCalendar.tsx:89 | `getDate()`: the day of month of that civil date (definition; see `ToCivil`) |
| JsDates.MakeDayCarry | src/components/VolumeCompetitionCalendar.tsx:88 | month index 12 is January of the next year |
| JsDates.MakeDayBorrow | src/components/VolumeCompetitionCalendar.tsx:69 | month index -1 is December of the previous year |
| JsDates.MakeDayNormalises | src/components/UltraPracticalCalendar.tsx:57 | any month index is first carried into the year, with a month in 0..11 left over |
| JsDates.Weekday | src/components/VolumeCompetitionCalendar.tsx:90 | `getDay` is in 0..6 |
| JsDates.DaysBeforeYearClosedForm | src/components/VolumeCompetitionCalendar.tsx:87 | the year-by-year day count agrees with the closed form: 365 days a year plus the Gregorian leap days |
| JsDates.YearOf | src/components/VolumeCompetitionCalendar.tsx:84 | every day number lies in exactly the year found for it |
| JsDates.ToCivil | src/components/VolumeCompetitionCalendar.tsx:84-85 | the year, month and day read from a day number form a valid date that builds back to that day number |
| JsDates.CivilUnique | src/components/VolumeCompetitionCalendar.tsx:84-85 | two valid dates that build the same day number are the same date |
| JsDates.CivilRoundTrip | src/components/VolumeCompetitionCalendar.tsx:130 | building a valid date and reading it back with the getters gives the same year, month and day |
| JsDates.AddDays | src/components/VolumeCompetitionCalendar.tsx:97 | `setDate(getDate() + k)` moves exactly `k` days, across month and year ends |
| JsDates.NextMonthShift | src/components/VolumeCompetitionCalendar.tsx:77 | `setMonth(getMonth() + 1)` keeps the day of month and so moves forward by this month's length |
| JsDates.PreviousMonthShift | src/components/VolumeCompetitionCalendar.tsx:69 | `setMonth(getMonth() - 1)` moves back by the previous month's length |
| JsDates.MonthBounds | src/components/VolumeCompetitionCalendar.tsx:88 | day 0 of the next month is this month's last day |
| JsDates.InMonth | src/components/VolumeCompetitionCalendar.tsx:361 | every day from a month's first to its last reads back as that month |
| JsDates.SetDate | src/components/VolumeCompetitionCalendar.tsx:90 | `setDate(k)` moves to day `k` of the same month, counting on past its ends |
| JsDates.SetMonth | src/components/VolumeCompetitionCalendar.tsx:77 | `setMonth` one month forward or back keeps the day of month, so it moves by a whole month's length |
| JsDates.StartOfMonth | src/components/VolumeCompetitionCalendar.tsx:87 | the first of a day's month lies `getDate() - 1` days before it and reads back as day 1 of that month |
| JsDates.FirstOfNextMonth | src/components/VolumeCompetitionCalendar.tsx:74-80 | the first of the following month reads back as day 1 of the next month and lies a month's length later |
| JsDates.FirstOfPreviousMonth | src/components/VolumeCompetitionCalendar.tsx:66-72 | the first of the preceding month reads back as day 1 of the previous month and lies that month's length earlier |
| JsDates.FirstsEqual | src/components/VolumeCompetitionCalendar.tsx:281 | two firsts of a month in the same month and year are the same day |
| JsDates.NearMonth | src/components/VolumeCompetitionCalendar.tsx:361 | near a month, a day has that month index exactly when it lies inside the month |
| JsDates.SameMonthIff | src/components/VolumeCompetitionCalendar.tsx:281 | a day has a given month and year exactly when it lies between that month's first and last day |
| JsDates.SundayOf | src/components/VolumeCompetitionCalendar.tsx:90 | going back `getDay()` days lands on a Sunday |
| JsDates.WeeksAfterSunday | src/components/VolumeCompetitionCalendar.tsx:95 | whole weeks after a Sunday is a Sunday, and the day before it a Saturday |
| JsDates.SundaysApart | src/components/VolumeCompetitionCalendar.tsx:95 | two Sundays lie a whole number of weeks apart |
| JsDates.FirstOfMonthIndex | src/components/VolumeCompetitionCalendar.tsx:130 | `new Date(y, m, 1)` is day 1 of month `m` counted from year `y`, whatever `m` is |
| JsDates.SetDateToFirst | src/components/VolumeCompetitionCalendar.tsx:107 | `setDate(1)` goes to the first of the same month |
| JsDates.SameMonthIndex | src/components/VolumeCompetitionCalendar.tsx:281 | equal `getMonth()` and `getFullYear()` is equal month index |
| JsDates.PreviousMonthKeepsDay | src/components/UltraPracticalCalendar.tsx:71 | from a day of month up to 28, `setMonth` one back lands in the previous month on the same day of month |
| JsDates.NextMonthKeepsDay | src/components/VolumeCompetitionCalendar.tsx:74-80 | from a day of month up to 28, `setMonth` one forward lands on the same day of the following month |
| JsDates.SetMonthOverflow | src/components/UltraPracticalCalendar.tsx:58 | `setMonth(m)` lands in month `m` or, when that month is too short for the day, in the month after it; up to the 28th always on the same day of month `m` |
| DayWindows.Window | src/components/LeaderboardCalendar.tsx:33-42 | the last `len` days end with today and are consecutive |
| DayWindows.LastDays | src/components/LeaderboardCalendar.tsx:35-40 | the `for (i = len - 1; i >= 0; i--)` loop builds exactly that window |
| DayWindows.WindowMembership | src/components/LeaderboardCalendar.tsx:33-42 | a day is in the window exactly when it is one of the last `len` days |
| DayWindows.WindowDistinct | src/components/CompactCalendar.tsx:20-37 | the window's days are distinct, and only its last cell is today |
| DayWindows.Strip | src/components/CompactCalendar.tsx:31-37 | the cells carry the window's dates, only the last one is today, at most one is selected, and one is selected exactly when the selected date lies in the window |
| DayWindows.ClickSelectsCell | src/components/CompactCalendar.tsx:62 | after clicking a cell, that cell and no other is selected |
| DayWindows.WeekdayLetter | src/components/CompactCalendar.tsx:44 | the letter is the initial of the weekday's name, so S, M, T, W, T, F, S from Sunday on |
| DayWindows.LettersTellWeekdays | src/components/CompactCalendar.tsx:44 | two days show the same letter exactly when they share a weekday, are both weekend days (S) or are Tuesday and Thursday (T) |
| DayWindows.WeekdayName | src/components/LeaderboardCalendar.tsx:52 | `getDay()` 0 to 6 shows "Sun", "Mon", "Tue", "Wed", "Thu", "Fri", "Sat", each name exactly on its weekday |
| DayWindows.NamesTellWeekdays | src/components/LeaderboardCalendar.tsx:100 | two days show the same name exactly when they fall on the same weekday |
| VolumeCompetitionCalendar.FirstDay | src/components/VolumeCompetitionCalendar.tsx:87 | the grid's month starts at the first of the displayed month |
| VolumeCompetitionCalendar.LastDay | src/components/VolumeCompetitionCalendar.tsx:88 | `new Date(y, m + 1, 0)` is the month's length minus one day after its first |
| VolumeCompetitionCalendar.SundayOnOrBefore | src/components/VolumeCompetitionCalendar.tsx:90 | the start is a Sunday less than a week before the first |
| VolumeCompetitionCalendar.GridStart | src/components/VolumeCompetitionCalendar.tsx:89-90 | the grid starts on the Sunday on or before the first of the month |
| VolumeCompetitionCalendar.GridBetween | src/components/VolumeCompetitionCalendar.tsx:92-98 | from a Sunday, whole weeks of consecutive days ending on the first Saturday on or after the last day |
| VolumeCompetitionCalendar.GridSpan | src/components/VolumeCompetitionCalendar.tsx:87-98 | the month spans four to six grid weeks |
| VolumeCompetitionCalendar.CalendarGrid | src/components/VolumeCompetitionCalendar.tsx:83-101 | the grid has 28 to 42 consecutive days, a multiple of 7, runs Sunday to Saturday, and covers the month from its first to its last day |
| VolumeCompetitionCalendar.GridDays | src/components/VolumeCompetitionCalendar.tsx:92-98 | the `while` loop stops after the first Saturday on or after the last day and collects every day from the start |
| VolumeCompetitionCalendar.CalendarDays | src/components/VolumeCompetitionCalendar.tsx:83-101 | `getCalendarDays` returns exactly that grid |
| VolumeCompetitionCalendar.CellEnabledIffInMonth | src/components/VolumeCompetitionCalendar.tsx:361 | a grid cell counts as the current month exactly when it lies between the month's first and last day |
| VolumeCompetitionCalendar.IsCurrentMonthCell | src/components/VolumeCompetitionCalendar.tsx:361 | a grid cell is the current month's when its `getMonth()` equals the displayed month's (definition; `CellEnabledIffInMonth` states what it means on the grid) |
| VolumeCompetitionCalendar.BackToSunday | src/components/VolumeCompetitionCalendar.tsx:110-112 | stepping back a day at a time stops at the Sunday on or before the start |
| VolumeCompetitionCalendar.WeekStarts | src/components/VolumeCompetitionCalendar.tsx:114-118 | six week starts, each a Sunday, seven days apart |
| VolumeCompetitionCalendar.WeeklyData | src/components/VolumeCompetitionCalendar.tsx:104-121 | six Sundays seven days apart, starting at the grid's first cell, each the first cell of a grid row |
| VolumeCompetitionCalendar.SelectedWeekCard | src/components/VolumeCompetitionCalendar.tsx:219-222 | a week card is highlighted for a date exactly when the date falls in that card's week, so at most one card is |
| VolumeCompetitionCalendar.WeekContains | src/components/VolumeCompetitionCalendar.tsx:219-221 | a week card contains a date from its start through six days later (definition; `SelectedWeekCard` states what it means) |
| VolumeCompetitionCalendar.MonthlyData | src/components/VolumeCompetitionCalendar.tsx:124-135 | twelve cards reading back as the first of January to December of the displayed year, in order |
| VolumeCompetitionCalendar.MonthCardSelected | src/components/VolumeCompetitionCalendar.tsx:281-282 | a month card is highlighted exactly for the days of its month |
| VolumeCompetitionCalendar.CompetitionStatus | src/components/VolumeCompetitionCalendar.tsx:52-53 | a card is active exactly when its date is not after today and current exactly when it is today; so a current card is active, and an active card that is not current lies before today |
| VolumeCompetitionCalendar.RunStatuses | src/components/VolumeCompetitionCalendar.tsx:52-53 | over consecutive days the active cards form a prefix, at most one card is current, and it is the one at today's offset |
| VolumeCompetitionCalendar.GridStatuses | src/components/VolumeCompetitionCalendar.tsx:52-53 | on the daily grid the active cards form a prefix, at most one is current, and one is current exactly when today lies in the grid |
| VolumeCompetitionCalendar.HandleDateSelect | src/components/VolumeCompetitionCalendar.tsx:392-398 | the date is reported, the calendar collapses, and the date and period are fetched exactly when a fetch callback is given |
| VolumeCompetitionCalendar.GridClickSelectsDisplayedMonth | src/components/VolumeCompetitionCalendar.tsx:190-191 | a click on a grid cell selects something exactly when the cell is a day of the displayed month, and then it selects that day |
| VolumeCompetitionCalendar.ClickDay | src/components/VolumeCompetitionCalendar.tsx:190-191 | a click on a grid cell runs `handleDateSelect` unless the cell is disabled as another month's (definition; `GridClickSelectsDisplayedMonth` states what it does on the grid) |
| VolumeCompetitionCalendar.WeekOfMonth | src/components/VolumeCompetitionCalendar.tsx:440 | the "Week n" number is in 1..5, and `n` is the week of the month containing the day |
| VolumeCompetitionCalendar.NextMonthAsWritten | src/components/VolumeCompetitionCalendar.tsx:74-80 | the Next button as written moves forward by the length of the displayed month |
| VolumeCompetitionCalendar.PreviousMonthAsWritten | src/components/VolumeCompetitionCalendar.tsx:66-72 | the Previous button as written moves back by the length of the previous month |
| VolumeCompetitionCalendar.NextMonthAsWrittenSkipsFebruary | src/components/VolumeCompetitionCalendar.tsx:74-80 | from January 31st the Next button as written lands in March |
| VolumeCompetitionCalendar.PreviousMonthAsWrittenStaysInMarch | src/components/VolumeCompetitionCalendar.tsx:66-72 | from March 31st the Previous button as written stays in March |
| VolumeCompetitionCalendar.GoToNextMonth | src/components/VolumeCompetitionCalendar.tsx:74-80 | corrected Next: the first of the month after the displayed one |
| VolumeCompetitionCalendar.GoToPreviousMonth | src/components/VolumeCompetitionCalendar.tsx:66-72 | corrected Previous: the first of the month before the displayed one |
| VolumeCompetitionCalendar.NavigationRoundTrip | src/components/VolumeCompetitionCalendar.tsx:66-80 | Next then Previous, or Previous then Next, returns to the first of the displayed month |
| VolumeCompetitionCalendar.Step | src/components/VolumeCompetitionCalendar.tsx:547-562 | each header control changes only its own part of the state; the month buttons call the handlers as written, so Next moves forward by the displayed month's length and Previous back by the previous month's length |
| VolumeCompetitionCalendar.MonthButtonsBefore29th | src/components/VolumeCompetitionCalendar.tsx:66-80 | up to the 28th the month buttons move exactly one month and keep the day of month |
| VolumeCompetitionCalendar.CorrectedStep | src/components/VolumeCompetitionCalendar.tsx:547-562 | corrected: the month buttons go to the first of the next or previous month, and the other controls act as in `Step` |
| VolumeCompetitionCalendar.StepInvolutions | src/components/VolumeCompetitionCalendar.tsx:491-529 | the collapse toggle undoes itself, and choosing a period twice is choosing it once |
| UltraPracticalCalendar.MonthlyViewAsWritten | src/components/UltraPracticalCalendar.tsx:53-62 | `getMonthlyView` as written yields six firsts of a month, the last being the first of the current month |
| UltraPracticalCalendar.CardAsWritten | src/components/UltraPracticalCalendar.tsx:56-58 | each card as written is the first of some month |
| UltraPracticalCalendar.FirstOf | src/components/UltraPracticalCalendar.tsx:58 | `setDate(1)` gives day 1 of the same month |
| UltraPracticalCalendar.FirstOfSameMonth | src/components/UltraPracticalCalendar.tsx:58 | two days of one month lead to the same card |
| UltraPracticalCalendar.SetMonthOn31st | src/components/UltraPracticalCalendar.tsx:57 | `setMonth(m)` on a 31st builds day 31 of month `m`, which may overflow |
| UltraPracticalCalendar.Overflow31st | src/components/UltraPracticalCalendar.tsx:57 | the 31st of a 30-day month falls in the following month |
| UltraPracticalCalendar.MonthlyViewAsWrittenRepeatsMonths | src/components/UltraPracticalCalendar.tsx:53-62 | on October 31st the cards as written repeat a month twice |
| UltraPracticalCalendar.MonthlyView | src/components/UltraPracticalCalendar.tsx:53-62 | corrected `getMonthlyView`: six cards |
| UltraPracticalCalendar.MonthlyViewCard | src/components/UltraPracticalCalendar.tsx:53-62 | corrected card `k` is the first of the month `5 - k` months before today's |
| UltraPracticalCalendar.MonthlyViewEndsThisMonth | src/components/UltraPracticalCalendar.tsx:138-141 | the six cards are distinct months, and only the last is the current month |
| UltraPracticalCalendar.MonthCardSelectedIff | src/components/UltraPracticalCalendar.tsx:138-139 | corrected: card `k` of the corrected view is selected exactly when the selection is `5 - k` months back |
| UltraPracticalCalendar.CardAsWrittenMonth | src/components/UltraPracticalCalendar.tsx:53-62 | the rendered card `i` months back is the first of that month or, from the 29th on, possibly of the month after it; up to the 28th always of that month |
| UltraPracticalCalendar.CardAsWrittenBefore29th | src/components/UltraPracticalCalendar.tsx:53-62 | up to the 28th the rendered card `i` months back equals the corrected card `5 - i` |
| UltraPracticalCalendar.MonthCardAsWrittenSelected | src/components/UltraPracticalCalendar.tsx:138-139 | a rendered card `i` months back is selected only when the selection lies `i` months back or one month later; up to the 28th exactly when it lies `i` months back |
| UltraPracticalCalendar.WeekStrip | src/components/UltraPracticalCalendar.tsx:41-50 | 28 consecutive days ending today, with one cell selected exactly when the selection is among them |
| UltraPracticalCalendar.NavigatePrevious | src/components/UltraPracticalCalendar.tsx:64-74 | Previous always moves back a week, or in month mode by the previous month's length |
| UltraPracticalCalendar.NextCandidate | src/components/UltraPracticalCalendar.tsx:76-90 | Next's target is a week, or in month mode this month's length, ahead |
| UltraPracticalCalendar.NavigateNext | src/components/UltraPracticalCalendar.tsx:76-90 | Next selects its target exactly when the target is not after today, and otherwise does nothing |
| UltraPracticalCalendar.CanNavigateNext | src/components/UltraPracticalCalendar.tsx:176-186 | the button is enabled only if a week ahead is not after today, and in week mode exactly then |
| UltraPracticalCalendar.NextDisabledIffNoOp | src/components/UltraPracticalCalendar.tsx:222-224 | the Next button is disabled exactly when a click would do nothing |
| UltraPracticalCalendar.WeekPreviousThenNext | src/components/UltraPracticalCalendar.tsx:64-90 | in week mode Next undoes Previous |
| UltraPracticalCalendar.MonthPreviousThenNext | src/components/UltraPracticalCalendar.tsx:64-90 | in month mode Next undoes Previous from days 1 to 28 |
| LeaderboardCalendar.DayStrip | src/components/LeaderboardCalendar.tsx:33-50 | 30 consecutive days ending today; one cell is selected exactly when the selection is among them |
| LeaderboardCalendar.ClickDay | src/components/LeaderboardCalendar.tsx:118 | clicking a day makes it the only selected cell |
| LeaderboardCalendar.Previous | src/components/LeaderboardCalendar.tsx:83-87 | Previous moves back exactly 30 days, always |
| LeaderboardCalendar.Next | src/components/LeaderboardCalendar.tsx:156-162 | Next moves forward 30 days exactly when that is not after today |
| LeaderboardCalendar.NextDisabled | src/components/LeaderboardCalendar.tsx:163 | the Next button is disabled when the selection is today or later (definition; `DisabledNextDoesNothing` and `EnabledNextMayDoNothing` state what it means) |
| LeaderboardCalendar.DisabledNextDoesNothing | src/components/LeaderboardCalendar.tsx:163 | when the button is disabled a click could not have moved the selection |
| LeaderboardCalendar.EnabledNextMayDoNothing | src/components/LeaderboardCalendar.tsx:159-163 | the button is enabled yet does nothing exactly for selections less than 30 days before today |
| LeaderboardCalendar.PreviousThenNext | src/components/LeaderboardCalendar.tsx:83-162 | Next undoes Previous from any selection up to today |
| LeaderboardCalendar.TwoDigits | src/components/LeaderboardCalendar.tsx:98-99 | a number below 100 prints as two digits that read back as the number |
| LeaderboardCalendar.PaddedValue | src/components/LeaderboardCalendar.tsx:98-99 | zero padding keeps the value of the digits |
| LeaderboardCalendar.DayLabel | src/components/LeaderboardCalendar.tsx:98 | the day label is two digits reading back as the day of month, "01" to "31" |
| LeaderboardCalendar.MonthLabel | src/components/LeaderboardCalendar.tsx:99 | the month label is two digits reading back as `getMonth() + 1`, "01" to "12" |
| LeaderboardCalendar.DayLabelIdentifies | src/components/LeaderboardCalendar.tsx:98 | two days of one month with the same day label are the same day |
| CompactCalendar.DayStrip | src/components/CompactCalendar.tsx:20-37 | seven consecutive days ending today; only the last is today; one is selected exactly when the selection is among them |
| CompactCalendar.CellLabel | src/components/CompactCalendar.tsx:43-44 | the letter is the weekday's initial, and the day text reads back as the day of month, one digit below 10 |
| CompactCalendar.StripCoversWeek | src/components/CompactCalendar.tsx:20-29 | the seven cells fall on seven different weekdays |
| CompactCalendar.ClickDay | src/components/CompactCalendar.tsx:62 | clicking a day makes it the only selected cell |
| Display.ShortenAddress | src/components/GetRecentSwaps.tsx:83-85 | the first six characters (all of a shorter address), then "...", then the last four (all of a shorter address), and nothing else |
| Display.ShortAddressLength | src/components/SwapDetails.tsx:89-91 | an address of at least ten characters shortens to thirteen: its first six, "..." and its last four |
| Display.ShortAddressShownTwice | src/components/MinimalLeaderboardEntry.tsx:65 | an address of at most four characters shows on both sides of the ellipsis |
| Display.DisplayName | src/components/MinimalLeaderboardEntry.tsx:65 | the nickname when it is non-empty, otherwise the shortened address |
| Display.AnonymousTraderName | src/components/LeaderboardEntry.tsx:102 | without a nickname a full-length address shows as its first six characters, "..." and its last four; the name is never empty, an empty address showing as "..." |
| Search.FieldMatches | src/components/TokenList.tsx:25-26 | a field matches exactly when the lowered term occurs in the lowered field |
| Search.OptionalFieldMatches | src/App.tsx:169 | an absent optional field never matches |
| Search.EmptyTermMatches | src/components/TokenList.tsx:25-26 | the empty term matches every field |
| Search.MatchIgnoresCase | src/components/TokenList.tsx:25-26 | the case of the term and of the field does not change the match |
| Search.CaseVariantsMatchAlike | src/components/TokenList.tsx:25-26 | a field and a term match exactly when any spelling of them in other letter case does |
| Search.FieldMatchesItself | src/components/TokenList.tsx:25-26 | every field matches itself |
| Search.FilterTokens | src/components/SimpleTokenList.tsx:18-21 | exactly the tokens whose name or symbol matches, in their input order |
| Search.TokenMatches | src/components/TokenList.tsx:23-28 | a token matches when the term is found, ignoring case, in its name or its symbol (definition; `FilterTokens` and `OwnSymbolFindsToken` state what it means) |
| Search.EmptyTermKeepsAllTokens | src/components/SimpleTokenList.tsx:18-21 | an empty search lists every token in order |
| Search.OwnSymbolFindsToken | src/components/SimpleTokenList.tsx:18-21 | searching a listed token's own symbol keeps that token |
| Search.NoMatchIff | src/components/SimpleTokenList.tsx:134 | the filtered list is empty exactly when no token matches |
| App.EntryMatches | src/App.tsx:168-172 | an entry matches when the term occurs, ignoring case, in its nickname, address or Twitter handle |
| App.FilteredEntries | src/App.tsx:168-172 | exactly the matching entries, in leaderboard order |
| App.EmptyTermKeepsAll | src/App.tsx:168-172 | an empty search keeps every entry, since every entry has an address |
| App.AnonymousMatchesByAddressOnly | src/App.tsx:169-171 | an entry without nickname and handle matches exactly through its address |
| App.SearchIgnoresCase | src/App.tsx:168-172 | a lower-cased term finds the same entries as the term itself |
| App.TraderCount | src/App.tsx:292 | the trader count is the number of matching entries, never more than the list |
| App.ToggleDarkMode | src/App.tsx:205 | the header button flips the page's theme and leaves its search and loading flag as they are |
| App.ToggleTwice | src/App.tsx:205 | two clicks restore the page, and the theme button never changes the trader count |
| App.TypeSearch | src/App.tsx:260 | typing sets the search term and leaves the theme and the loading flag alone |
| App.LoadingTimerFires | src/App.tsx:161-166 | the mount timer ends loading and keeps the theme and the search |
| App.Panel | src/App.tsx:296-314 | the spinner shows exactly while loading; after that the rows are exactly the matching entries, in leaderboard order |
| App.LoadingPhase | src/App.tsx:161-166 | the page mounts on the spinner whatever is typed; when the timer fires with an empty search every entry shows, a term typed during loading filters as if typed after it, and the trader count does not wait |
| TokenList.FilteredTokens | src/components/TokenList.tsx:23-40 | the listed tokens are ordered by the chosen metric, largest first, with a missing value as 0, and are a permutation of the matching tokens |
| TokenList.ResortChangesNothing | src/components/TokenList.tsx:29-40 | sorting the listed tokens again by the same metric changes nothing |
| TokenList.EmptySearchListsAll | src/components/TokenList.tsx:25-26 | with an empty search every token is listed, reordered |
| TokenList.ToggleFavorite | src/components/TokenList.tsx:73 | the star button flips only its own flag |
| TokenList.FavoriteOnlyIgnored | src/components/TokenList.tsx:20-28 | the favourites flag does not change the listed tokens or their order |
| TokenList.OneHighlightedRow | src/components/TokenList.tsx:138 | with distinct addresses at most one row is highlighted, and a token's own row is highlighted when it is the selection |
| TokenList.Highlighted | src/components/TokenList.tsx:138 | a row is highlighted when its address is the selected token's (definition; `OneHighlightedRow` states what it means) |
| SimpleTokenList.Render | src/components/SimpleTokenList.tsx:118-143 | "No tokens found" shows exactly when not loading, without an error, and with nothing matching; rows show only when not loading and without an error, and then they are the filtered tokens one for one in order, each marked when its address is the selection's |
| SimpleTokenList.EmptyMessageExcludesRows | src/components/SimpleTokenList.tsx:134-142 | the empty message and the rows never show together, and once loaded without error one of them does |
| SimpleTokenList.EmptyErrorShowsList | src/components/SimpleTokenList.tsx:127-142 | an empty error message shows no error and still lists the matching tokens |
| SimpleTokenList.NoSelectionNoMarker | src/components/SimpleTokenList.tsx:143 | with nothing selected no row is marked |
| SimpleTokenList.IsSelected | src/components/SimpleTokenList.tsx:143 | a row carries the marker when a token is selected and has the row's address (definition; `NoSelectionNoMarker` and `ClickMarksRow` state what it means) |
| SimpleTokenList.HandleTokenSelect | src/components/SimpleTokenList.tsx:81-86 | the clicked token becomes the selection, and it is passed on exactly when a fetch callback is given |
| SimpleTokenList.ClickMarksRow | src/components/SimpleTokenList.tsx:143 | after a click, a row is marked exactly when it shares the clicked token's address |
| GetRecentSwaps.InitialState | src/components/GetRecentSwaps.tsx:30-32 | the component starts loading, with no swaps and no error |
| GetRecentSwaps.BeginFetch | src/components/GetRecentSwaps.tsx:34-44 | with no token the list is cleared and loading stops without a request; otherwise loading starts, the error is cleared and the token's symbol is requested |
| GetRecentSwaps.CompleteFetch | src/components/GetRecentSwaps.tsx:45-55 | loading stops; success replaces the swaps, and failure keeps them and sets the error message |
| GetRecentSwaps.FetchSwaps | src/components/GetRecentSwaps.tsx:34-56 | no call ends loading; with a token, success shows the new swaps without error and failure keeps the old ones with an error |
| GetRecentSwaps.Render | src/components/GetRecentSwaps.tsx:91-191 | the loading view shows exactly while loading, the error view exactly for a truthy error and with that error's message, and the empty message names the token or asks for one |
| GetRecentSwaps.FetchNeverEndsLoading | src/components/GetRecentSwaps.tsx:53-55 | after a fetch the loading view never shows, a non-empty result is listed, and a thrown message is displayed |
| GetRecentSwaps.FormatTime | src/components/GetRecentSwaps.tsx:72-81 | under a minute (future times included) is "Just now"; then minutes 1..59, hours 1..23, and the date from a day on |
| GetRecentSwaps.FormatTimeMonotonic | src/components/GetRecentSwaps.tsx:72-81 | an older swap never gets a more recent label |
| GetRecentSwaps.RelativeText | src/components/GetRecentSwaps.tsx:77-79 | the text ends in "m ago" or "h ago" after digits that read back as the count |
| GetRecentSwaps.CountThen | src/components/GetRecentSwaps.tsx:78-79 | a printed count followed by its unit reads back as the count |
| GetRecentSwaps.ChangePercent | src/components/GetRecentSwaps.tsx:303 | for a non-zero starting price the percentage is finite and, times that price, is 100 times the price change; for a zero starting price it is not finite, and NaN exactly when the final price is zero too |
| GetRecentSwaps.TrendUp | src/components/GetRecentSwaps.tsx:295-301 | the arrow points up when the final USD price exceeds the starting one (definition; `ArrowAgreesWithPercent` ties it to the percentage) |
| Base.PercentOfStart | src/components/GetRecentSwaps.tsx:303 | `(to / from - 1) * 100` times `from` is 100 times `to - from` |
| GetRecentSwaps.ArrowAgreesWithPercent | src/components/GetRecentSwaps.tsx:295-303 | for a positive starting price the arrow points up exactly when the percentage is positive |
| SwapDetails.InitialState | src/components/SwapDetails.tsx:46-48 | the page starts loading, with no transactions and no error |
| SwapDetails.BeginFetch | src/components/SwapDetails.tsx:56-57 | a fetch starts loading and clears the error |
| SwapDetails.FetchTransactions | src/components/SwapDetails.tsx:55-70 | loading stops; success replaces the list and clears the error, and failure keeps the list and sets the error message |
| SwapDetails.FailedFetchShowsError | src/components/SwapDetails.tsx:65-69 | a thrown non-empty message ends as a truthy error |
| SwapDetails.TransactionType | src/components/SwapDetails.tsx:104-106 | a transaction is a Sell exactly when it sells the page's ticker, and otherwise a Buy |
| SwapDetails.SwapSidesOpposite | src/components/SwapDetails.tsx:104-106 | a swap between two different tokens is a Sell on the page of the token it gives and a Buy on the page of the token it gets |
| SwapDetails.GetPriceChange | src/components/SwapDetails.tsx:108-116 | `value` is the USD price difference and `isPositive` says it is positive; for a non-zero starting price the percentage is finite and, times that price, is 100 times `value`, with the sign of `value` for a positive start and the opposite sign for a negative one; for a zero start it is not finite, and NaN exactly when `value` is zero |
| SwapDetails.PercentOfDifference | src/components/SwapDetails.tsx:109-110 | `diff / from * 100` times `from` is `100 * diff`, and its sign follows `diff` and the sign of `from` |
| SwapDetails.TotalVolume | src/components/SwapDetails.tsx:157 | the left fold of `reduce((sum, tx) => sum + tx.FromTokenTotalInUSD, 0)` (definition; `TotalVolumeAppend` and `TotalVolumeBounds` state what it means) |
| SwapDetails.TotalVolumeAppend | src/components/SwapDetails.tsx:157 | the total of two lists is the sum of their totals |
| SwapDetails.TotalVolumeBounds | src/components/SwapDetails.tsx:157 | with every size between 0 and a bound, the total lies between 0 and the count times the bound |
| SwapDetails.AverageAsWritten | src/components/SwapDetails.tsx:157-159 | for a non-empty list the average as written is the total over the count |
| SwapDetails.EmptyAverageIsNaN | src/components/SwapDetails.tsx:159 | for an empty list the average as written is NaN |
| SwapDetails.AverageTransactionSize | src/components/SwapDetails.tsx:157-159 | corrected average: the as-written value for a non-empty list and 0 for an empty one; times the count it gives the total |
| SwapDetails.AverageWithinBounds | src/components/SwapDetails.tsx:254 | the corrected average lies between 0 and the largest transaction size |
| Display.RankColor | src/components/LeaderboardEntry.tsx:25-30 | ranks 1, 2 and 3 each get their own palette colour whatever the theme; every other rank, zero and negative included, gets the theme's colour (the same lookup with the dot colours is MinimalLeaderboardEntry.tsx:22-27) |
| LeaderboardEntry.RankColorsDistinct | src/components/LeaderboardEntry.tsx:25-30 | the podium ranks and the rest are told apart in either theme, and all other ranks look alike |
| LeaderboardEntry.TierColor | src/components/LeaderboardEntry.tsx:32-41 | the table entry for a known tier, and the fallback otherwise |
| LeaderboardEntry.TierColorsDistinct | src/components/LeaderboardEntry.tsx:33-39 | the five tiers have five different gradients |
| LeaderboardEntry.UnknownTierLooksSilver | src/components/LeaderboardEntry.tsx:40 | a tier looks like silver exactly when it is silver or unknown |
| LeaderboardEntry.ProgressWidth | src/components/LeaderboardEntry.tsx:61-63 | the width is at most 100, non-negative for non-negative inputs, proportional below the total, and 100 exactly from the total on; a zero total divides by 1 |
| LeaderboardEntry.ProgressWidthMonotonic | src/components/LeaderboardEntry.tsx:61-63 | a larger volume never gets a shorter bar |
| LeaderboardEntry.HandleClick | src/components/LeaderboardEntry.tsx:79-121 | a card click toggles the card; a copy click copies the address and leaves the card as it is |
| LeaderboardEntry.CardClickTwice | src/components/LeaderboardEntry.tsx:79 | two card clicks restore the card, and a copy click in between does not count as one |
| MinimalLeaderboardEntry.RankColorOffPodium | src/components/MinimalLeaderboardEntry.tsx:22-27 | off the podium the colour depends on the theme only, and in light mode it equals rank 2's |
| MinimalLeaderboardEntry.TotalPercentage | src/components/MinimalLeaderboardEntry.tsx:40 | for shares that are not negative the total is at least each share and zero only when both are (`BarWidths` and `BarSplitProportional` state what it is used for) |
| MinimalLeaderboardEntry.BarWidths | src/components/MinimalLeaderboardEntry.tsx:137-143 | the widths sum to 100 from a combined share of 1 on, to the combined share times 100 below it, and never exceed 100 for non-negative shares |
| MinimalLeaderboardEntry.BarSplitProportional | src/components/MinimalLeaderboardEntry.tsx:137-143 | the two parts of the bar keep the ratio of the two shares |
| ThemeContext.InitialDarkMode | src/contexts/ThemeContext.tsx:129-137 | a non-empty saved value decides (dark exactly for "dark"); otherwise dark |
| ThemeContext.PersistedTheme | src/contexts/ThemeContext.tsx:141 | the saved value is "dark" exactly in dark mode, and never empty |
| ThemeContext.ThemeRoundTrip | src/contexts/ThemeContext.tsx:129-141 | a reload restores the persisted theme |
| ThemeContext.ToggleTheme | src/contexts/ThemeContext.tsx:153-155 | the toggle flips the theme |
| ThemeContext.ToggleThemeTwice | src/contexts/ThemeContext.tsx:153-155 | toggling twice restores the theme, and each toggle persists a different value |
| ThemeContext.InitialTokenState | src/contexts/ThemeContext.tsx:43-46 | the provider starts loading, with no tokens, no selection and no error |
| ThemeContext.WithMockMetrics | src/contexts/ThemeContext.tsx:62-68 | the tokens keep their length, order and other fields; only the four metrics are set |
| ThemeContext.BeginTokenFetch | src/contexts/ThemeContext.tsx:50-51 | a fetch starts loading and clears the error |
| ThemeContext.FetchTokens | src/contexts/ThemeContext.tsx:48-82 | loading stops; success lists the tokens in order with address and symbol kept and selects the first when there is one; failure keeps the tokens and the selection and sets the error message |
| ThemeContext.RefreshResetsSelection | src/contexts/ThemeContext.tsx:72-75 | a successful non-empty load selects its first token, whatever was selected |
| ThemeContext.SelectToken | src/contexts/ThemeContext.tsx:97 | `setSelectedToken` changes the selection and nothing else |
| AdvancedFilters.InitialForm | src/components/advanced/AdvancedFilters.tsx:11-17 | the panel starts closed, with every field at its default |
| AdvancedFilters.ApplyFilters | src/components/advanced/AdvancedFilters.tsx:43-53 | Apply reports the form's fields, with the minimum volume 0 for an empty input and parsed otherwise, and closes the panel |
| AdvancedFilters.ResetFilters | src/components/advanced/AdvancedFilters.tsx:55-70 | Reset puts every field back to its default, keeps the panel open or closed, and reports the default filters |
| AdvancedFilters.ResetIdempotent | src/components/advanced/AdvancedFilters.tsx:55-70 | resetting twice is resetting once |
| AdvancedFilters.ApplyAfterReset | src/components/advanced/AdvancedFilters.tsx:43-70 | Apply right after Reset reports exactly the default filters |
| AdvancedFilters.SelectTier | src/components/advanced/AdvancedFilters.tsx:144 | a tier button sets the tier and nothing else |
| AdvancedFilters.ToggleVerified | src/components/advanced/AdvancedFilters.tsx:235 | the verified switch flips its flag and nothing else |
| AdvancedFilters.TogglePanel | src/components/advanced/AdvancedFilters.tsx:95 | the filter button opens or closes the panel and changes nothing else |
| AdvancedFilters.ControlsReachApply | src/components/advanced/AdvancedFilters.tsx:144-251 | what the tier buttons and the switch set is what Apply reports |

## Left out

- Rendering: JSX, class-name strings, framer-motion animation, icons and layout carry no logic to state.
- Network requests are not made. Each request is an input, the `FetchOutcome` it ended in, so the request URLs are not modelled.
- The random figures are not modelled: `Math.random` in the competition data (src/components/VolumeCompetitionCalendar.tsx:44-51) and the mock token metrics. `ThemeContext.WithMockMetrics` takes the drawn metrics as a parameter.
- Number and date formatting (`toFixed`, `toLocaleString`, `toLocaleDateString`, the compact K/M/B forms) depends on floating-point rounding and the locale. `GetRecentSwaps.FormatTime` returns the timestamp in place of its locale date.
- Time of day, time zones and daylight saving time are not modelled: a date is a whole day number. `currentMonth` starts as `new Date()` with the time of day (src/components/VolumeCompetitionCalendar.tsx:36), so its week cards carry that time; the model has midnight only.
- The strips call `new Date()` once per cell. The model assumes midnight is not crossed while a strip is built.
- Clipboard writes, `localStorage` I/O, `document.body` styling and scrolling are effects without a result the view reads back. The copy button is modelled only as the text it copies.
- App's 1.5 s loading timer (src/App.tsx:161-166) is modelled only as an event, `App.LoadingTimerFires`, that ends loading; its delay, and its clearing on unmount, are not modelled.
- Overlapping requests that finish out of order are not modelled, because that is concurrency. Each fetch runs alone, from start to `finally`.
- The mock leaderboard in src/App.tsx:19-159 and the wiring in src/main.tsx are data and setup.
- TradingChart, StatsGrid, MarketOverview, MinimalStats, UserStatsPanel and CompactUserStats are display-only components and are not part of this model.
- `chzRatio` and `tokenRatio` (src/components/MinimalLeaderboardEntry.tsx:41-42) are computed but never read.
- The plain input setters of the advanced filters (search, time range, sort and minimum-volume boxes) and its close button store one value each; only the tier buttons, the switch and the panel toggle are modelled.
- LeaderboardEntry.TierColor: an object property lookup also finds inherited keys such as "constructor". The model treats every string outside the five tiers as unknown.
- JsStrings.ToLower: only the ASCII letters are lowered; the full Unicode case mapping is not modelled.
- JsDates.MakeDay: the `Date` constructor's mapping of years 0 to 99 to 1900 to 1999 is not modelled, and neither is the "Invalid Date" beyond 8.64e15 ms either side of 1970; the model takes every year as written and has no date range. The components only build dates near the current one.
- GetRecentSwaps.FormatTime: it takes the swap's time as a whole number of milliseconds. Parsing `swap.Timestamp` with `new Date(timestamp)` (src/components/GetRecentSwaps.tsx:73, :212) is not modelled, so neither is an unparseable string, whose NaN time fails every comparison and ends in "Invalid Date".
- JavaScript numbers are modelled as reals. Rounding is not kept; only the NaN and infinite results of a division are (`Base.JsNumber`).
- AdvancedFilters.ApplyFilters: `parseFloat` is a parameter, not a model of number parsing.
- TokenList.FilteredTokens: `(x || 0)` also turns a NaN metric into 0. The model has no NaN metrics, only missing ones.
- VolumeCompetitionCalendar.CompetitionStatus: the random volume, change and prize pool of a card are not modelled; only its two flags are.
- ListOps.Sort: that ties keep their input order, as the stable `Array.prototype.sort` does, is not stated; only order and permutation are.
- UltraPracticalCalendar.MonthPreviousThenNext: the round trip is stated only from days 1 to 28. From the 29th on, `setMonth` can overflow, as the findings below show.

## Findings

| source | as written | input that shows it | evidently intended | confidence | as-written member | corrected member |
|---|---|---|---|---|---|---|
| src/components/VolumeCompetitionCalendar.tsx:74-80 | `goToNextMonth` calls `setMonth(getMonth() + 1)` on the displayed date, which keeps its day of month | displayed date January 31st: February 31st overflows to March 3rd (2nd in a leap year), so February is skipped | show the following month | high, not executed | VolumeCompetitionCalendar.NextMonthAsWrittenSkipsFebruary | VolumeCompetitionCalendar.GoToNextMonth |
| src/components/VolumeCompetitionCalendar.tsx:66-72 | `goToPreviousMonth` calls `setMonth(getMonth() - 1)`, keeping the day of month | displayed date March 31st: February 31st overflows back into March, so the button does not move | show the preceding month | high, not executed | VolumeCompetitionCalendar.PreviousMonthAsWrittenStaysInMarch | VolumeCompetitionCalendar.GoToPreviousMonth |
| src/components/UltraPracticalCalendar.tsx:53-62 | each card calls `setMonth(getMonth() - i)` on today and only then `setDate(1)` | today October 31st: the cards read May, July, July, August, October, October | the first of each of the last six months, ending with the current one | high, not executed | UltraPracticalCalendar.MonthlyViewAsWrittenRepeatsMonths | UltraPracticalCalendar.MonthlyViewEndsThisMonth |
| src/components/SwapDetails.tsx:157-159 | `avgTransactionSize` divides the total by the count with no guard | an empty transaction list: 0 / 0 is NaN, and the card shows "$NaN" | an average of 0, like the total and the count shown beside it | medium, not executed | SwapDetails.EmptyAverageIsNaN | SwapDetails.AverageTransactionSize |
