/** The two context providers: the theme preference, stored under the
    `theme` key, and the token list loaded from the token registry with
    made-up market metrics. */
module ThemeContext {
  import opened Base
  import opened Types

  // ------------------------------------------------------------ theme

  /** The initial `isDarkMode`: a non-empty saved value decides, and it is
      dark only when it reads "dark"; with nothing saved the theme is dark. */
  function InitialDarkMode(saved: Option<string>): (r: bool)
    ensures Truthy(saved) ==> (r <==> saved.value == "dark")
    ensures !Truthy(saved) ==> r
  {
    match saved
    case Some(s) => if s != "" then s == "dark" else true
    case None => true
  }

  /** The value the effect writes back under the `theme` key. */
  function PersistedTheme(isDarkMode: bool): (r: string)
    ensures r != ""
    ensures r == "dark" <==> isDarkMode
  {
    if isDarkMode then "dark" else "light"
  }

  /** A reload reads back the theme that was last persisted. */
  lemma ThemeRoundTrip(isDarkMode: bool)
    ensures InitialDarkMode(Some(PersistedTheme(isDarkMode))) == isDarkMode
  {
  }

  /** `toggleTheme`. */
  function ToggleTheme(isDarkMode: bool): (r: bool)
    ensures r != isDarkMode
  {
    !isDarkMode
  }

  /** Toggling twice restores the theme, and what is persisted with it. */
  lemma ToggleThemeTwice(isDarkMode: bool)
    ensures ToggleTheme(ToggleTheme(isDarkMode)) == isDarkMode
    ensures PersistedTheme(ToggleTheme(isDarkMode)) != PersistedTheme(isDarkMode)
  {
  }

  // ------------------------------------------------------------ tokens

  /** The four `Math.random()`-based metrics given to one token. */
  datatype Metrics = Metrics(price: real, change24h: real, volume24h: real, marketCap: real)

  /** The token provider's state. */
  datatype TokenState = TokenState(
    tokens: seq<Token>,
    selectedToken: Option<Token>,
    loading: bool,
    error: Option<string>)

  /** Before the first load: no tokens, nothing selected, loading. */
  function InitialTokenState(): (r: TokenState)
    ensures r.loading && r.tokens == [] && r.selectedToken.None? && r.error.None?
  {
    TokenState([], None, true, None)
  }

  /** `{...token, price, change24h, volume24h, marketCap}` with the draws
      `metrics(i)` for the token at index `i`. */
  function WithMockMetrics(data: seq<Token>, metrics: nat -> Metrics): (r: seq<Token>)
    ensures |r| == |data|
    ensures forall i :: 0 <= i < |r| ==>
              r[i].(price := data[i].price, change24h := data[i].change24h,
                    volume24h := data[i].volume24h, marketCap := data[i].marketCap) == data[i]
    ensures forall i :: 0 <= i < |r| ==>
              r[i].price.Some? && r[i].change24h.Some? && r[i].volume24h.Some? && r[i].marketCap.Some?
  {
    seq(|data|, i requires 0 <= i < |data| =>
      var m := metrics(i);
      data[i].(price := Some(m.price), change24h := Some(m.change24h),
               volume24h := Some(m.volume24h), marketCap := Some(m.marketCap)))
  }

  /** The start of `fetchTokens`: loading, with the previous error cleared. */
  function BeginTokenFetch(s: TokenState): (r: TokenState)
    ensures r.loading && r.error.None?
    ensures r.tokens == s.tokens && r.selectedToken == s.selectedToken
  {
    s.(loading := true, error := None)
  }

  /** `fetchTokens` from request to `finally`, given how the request ended. */
  function FetchTokens(s: TokenState, outcome: FetchOutcome<seq<Token>>, metrics: nat -> Metrics): (r: TokenState)
    ensures !r.loading
    ensures outcome.Loaded? ==> r.error.None? && |r.tokens| == |outcome.data|
    ensures outcome.Loaded? ==> forall i :: 0 <= i < |r.tokens| ==>
              r.tokens[i].address == outcome.data[i].address && r.tokens[i].symbol == outcome.data[i].symbol
    ensures outcome.Loaded? && |outcome.data| > 0 ==> r.selectedToken == Some(r.tokens[0])
    ensures outcome.Loaded? && |outcome.data| == 0 ==> r.selectedToken == s.selectedToken
    ensures !outcome.Loaded? ==>
              r.tokens == s.tokens && r.selectedToken == s.selectedToken
              && r.error == Some(FailureMessage(outcome, "Failed to fetch tokens"))
  {
    var started := BeginTokenFetch(s);
    var finished :=
      match outcome
      case Loaded(data) =>
        var tokens := WithMockMetrics(data, metrics);
        var withTokens := started.(tokens := tokens);
        if |tokens| > 0 then withTokens.(selectedToken := Some(tokens[0])) else withTokens
      case _ => started.(error := Some(FailureMessage(outcome, "Failed to fetch tokens")));
    finished.(loading := false)
  }

  /** A successful load selects its first token even when another token was
      selected before: the selection does not survive a refresh. */
  lemma RefreshResetsSelection(s: TokenState, data: seq<Token>, metrics: nat -> Metrics)
    requires |data| > 0
    ensures var r := FetchTokens(s, Loaded(data), metrics);
            r.selectedToken.Some? && r.selectedToken.value.address == data[0].address
  {
  }

  /** `setSelectedToken`, which only changes the selection. */
  function SelectToken(s: TokenState, t: Token): (r: TokenState)
    ensures r.selectedToken == Some(t)
    ensures r.(selectedToken := s.selectedToken) == s
  {
    s.(selectedToken := Some(t))
  }
}
