/** The recent-swaps feed of the selected token: its loading state machine,
    relative times and the price-direction arrow. */
module GetRecentSwaps {
  import opened Base
  import opened Types
  import opened JsStrings

  /** The component's state. */
  datatype SwapsState = SwapsState(swaps: seq<Swap>, loading: bool, error: Option<string>)

  /** Before the first fetch: no swaps, loading. */
  function InitialState(): (r: SwapsState)
    ensures r.loading && r.swaps == [] && r.error.None?
  {
    SwapsState([], true, None)
  }

  /** The start of `fetchSwaps`: with no token the list is cleared and
      loading stops, with no request; otherwise loading starts with the
      error cleared, and the request asks for the token's symbol. */
  function BeginFetch(s: SwapsState, selected: Option<Token>): (r: (SwapsState, Option<string>))
    ensures selected.None? ==> r.0 == s.(swaps := [], loading := false) && r.1.None?
    ensures selected.Some? ==>
              r.0 == s.(loading := true, error := None) && r.1 == Some(selected.value.symbol)
  {
    match selected
    case None => (s.(swaps := [], loading := false), None)
    case Some(t) => (s.(loading := true, error := None), Some(t.symbol))
  }

  /** The rest of `fetchSwaps`, once the request has ended. */
  function CompleteFetch(s: SwapsState, outcome: FetchOutcome<seq<Swap>>): (r: SwapsState)
    ensures !r.loading
    ensures outcome.Loaded? ==> r.swaps == outcome.data && r.error == s.error
    ensures !outcome.Loaded? ==>
              r.swaps == s.swaps && r.error == Some(FailureMessage(outcome, "Failed to fetch swaps"))
  {
    match outcome
    case Loaded(data) => s.(swaps := data, loading := false)
    case _ => s.(error := Some(FailureMessage(outcome, "Failed to fetch swaps")), loading := false)
  }

  /** One whole `fetchSwaps` call. */
  function FetchSwaps(s: SwapsState, selected: Option<Token>, outcome: FetchOutcome<seq<Swap>>): (r: SwapsState)
    ensures !r.loading
    ensures selected.None? ==> r.swaps == [] && r.error == s.error
    ensures selected.Some? && outcome.Loaded? ==> r.swaps == outcome.data && r.error.None?
    ensures selected.Some? && !outcome.Loaded? ==> r.swaps == s.swaps && r.error.Some?
  {
    var (started, request) := BeginFetch(s, selected);
    if request.None? then started else CompleteFetch(started, outcome)
  }

  /** Which of the component's three returns renders. */
  datatype View = LoadingView | ErrorView(message: string) | EmptyView(message: string) | ListView(swaps: seq<Swap>)

  function Render(s: SwapsState, selected: Option<Token>): (r: View)
    ensures r.LoadingView? <==> s.loading
    ensures r.ErrorView? <==> !s.loading && Truthy(s.error)
    ensures r.ErrorView? ==> r.message == s.error.value
    ensures r.ListView? ==> r.swaps == s.swaps && |s.swaps| > 0
    ensures r.EmptyView? ==> s.swaps == []
    ensures r.EmptyView? && selected.Some? ==> r.message == "No recent swaps for " + selected.value.symbol
    ensures r.EmptyView? && selected.None? ==> r.message == "Select a token to view recent swaps"
  {
    if s.loading then LoadingView
    else if Truthy(s.error) then ErrorView(s.error.value)
    else if |s.swaps| == 0 then
      EmptyView(if selected.Some? then "No recent swaps for " + selected.value.symbol
                else "Select a token to view recent swaps")
    else ListView(s.swaps)
  }

  /** No fetch ends in the loading view, and a successful one for a token
      shows its swaps, or the "No recent swaps" message when there are none. */
  lemma FetchNeverEndsLoading(s: SwapsState, t: Token, outcome: FetchOutcome<seq<Swap>>)
    ensures !Render(FetchSwaps(s, Some(t), outcome), Some(t)).LoadingView?
    ensures outcome.Loaded? && |outcome.data| > 0 ==>
              Render(FetchSwaps(s, Some(t), outcome), Some(t)) == ListView(outcome.data)
    ensures !outcome.Loaded? && outcome.Thrown? && outcome.message != "" ==>
              Render(FetchSwaps(s, Some(t), outcome), Some(t)) == ErrorView(outcome.message)
  {
  }

  // ------------------------------------------------------------ time labels

  /** What `formatTime` prints: a relative time, or a locale date. */
  datatype TimeLabel = JustNow | MinutesAgo(minutes: nat) | HoursAgo(hours: nat) | AbsoluteDate(timestampMs: int)

  /** `formatTime`: `Math.floor((now - date) / 60000)` bucketed into
      "Just now", minutes, hours or the date. */
  function FormatTime(timestampMs: int, nowMs: int): (r: TimeLabel)
    ensures r.JustNow? <==> nowMs - timestampMs < 60000
    ensures r.MinutesAgo? ==>
              1 <= r.minutes < 60 && r.minutes * 60000 <= nowMs - timestampMs < (r.minutes + 1) * 60000
    ensures r.HoursAgo? ==>
              1 <= r.hours <= 23 && r.hours * 3600000 <= nowMs - timestampMs < (r.hours + 1) * 3600000
    ensures r.AbsoluteDate? <==> nowMs - timestampMs >= 1440 * 60000
    ensures r.AbsoluteDate? ==> r.timestampMs == timestampMs
  {
    var diffInMinutes := (nowMs - timestampMs) / 60000;
    if diffInMinutes < 1 then JustNow
    else if diffInMinutes < 60 then MinutesAgo(diffInMinutes)
    else if diffInMinutes < 1440 then HoursAgo(diffInMinutes / 60)
    else AbsoluteDate(timestampMs)
  }

  /** Older swaps never get a shorter-sounding label. */
  lemma FormatTimeMonotonic(a: int, b: int, nowMs: int)
    requires a <= b
    ensures FormatTime(b, nowMs).JustNow? || !FormatTime(a, nowMs).JustNow?
    ensures FormatTime(a, nowMs).MinutesAgo? && FormatTime(b, nowMs).MinutesAgo? ==>
              FormatTime(b, nowMs).minutes <= FormatTime(a, nowMs).minutes
  {
  }

  /** The text of a relative label: "Just now", "{n}m ago" or "{n}h ago". */
  function RelativeText(l: TimeLabel): (r: string)
    requires !l.AbsoluteDate?
    ensures l.JustNow? ==> r == "Just now"
    ensures l.MinutesAgo? ==>
              |r| > 5 && r[|r| - 5..] == "m ago" && AllDigits(r[..|r| - 5]) && ParseDecimal(r[..|r| - 5]) == l.minutes
    ensures l.HoursAgo? ==>
              |r| > 5 && r[|r| - 5..] == "h ago" && AllDigits(r[..|r| - 5]) && ParseDecimal(r[..|r| - 5]) == l.hours
  {
    match l
    case JustNow => "Just now"
    case MinutesAgo(m) => CountThen(m, "m ago")
    case HoursAgo(h) => CountThen(h, "h ago")
  }

  /** A count followed by a unit, from which the count reads back. */
  function CountThen(n: nat, unit: string): (r: string)
    ensures |r| == |DecimalString(n)| + |unit| && r[|r| - |unit|..] == unit
    ensures AllDigits(r[..|r| - |unit|]) && ParseDecimal(r[..|r| - |unit|]) == n
  {
    var digits := DecimalString(n);
    DecimalRoundTrip(n);
    var r := digits + unit;
    assert r[..|r| - |unit|] == digits;
    r
  }

  // ------------------------------------------------------------ price arrow

  /** The arrow is up when the USD price rose over the swap. */
  predicate TrendUp(swap: Swap) {
    swap.priceToInUSD > swap.priceFromInUSD
  }

  /** `(PriceToInUSD / PriceFromInUSD - 1) * 100`, the percentage beside it. */
  function ChangePercent(swap: Swap): (r: JsNumber)
    ensures swap.priceFromInUSD != 0.0 ==>
              r.Finite? && r.value * swap.priceFromInUSD == 100.0 * (swap.priceToInUSD - swap.priceFromInUSD)
    ensures swap.priceFromInUSD == 0.0 ==> !r.Finite?
    ensures swap.priceFromInUSD == 0.0 ==> (r == NaN <==> swap.priceToInUSD == 0.0)
  {
    match JsDivide(swap.priceToInUSD, swap.priceFromInUSD)
    case Finite(q) =>
      PercentOfStart(swap.priceToInUSD, swap.priceFromInUSD);
      Finite((q - 1.0) * 100.0)
    case NaN => NaN
    case PositiveInfinity => PositiveInfinity
    case NegativeInfinity => NegativeInfinity
  }

  /** For a positive starting price the arrow points up exactly when the
      percentage is positive. */
  lemma ArrowAgreesWithPercent(swap: Swap)
    requires swap.priceFromInUSD > 0.0
    ensures TrendUp(swap) <==> ChangePercent(swap).value > 0.0
  {
    var q := swap.priceToInUSD / swap.priceFromInUSD;
    assert swap.priceToInUSD == q * swap.priceFromInUSD;
  }
}
