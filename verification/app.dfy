/** The leaderboard page: the trader search and the header controls. */
module App {
  import opened Base
  import opened Types
  import opened JsStrings
  import opened ListOps
  import opened Search

  /** The filter of `filteredEntries`: nickname, address or Twitter handle
      contains the term, ignoring case. */
  function EntryMatches(e: Entry, term: string): (r: bool)
    ensures r <==> || (e.nickname.Some? && ContainsSubstring(ToLower(e.nickname.value), ToLower(term)))
                   || ContainsSubstring(ToLower(e.address), ToLower(term))
                   || (e.twitterHandle.Some? && ContainsSubstring(ToLower(e.twitterHandle.value), ToLower(term)))
  {
    OptionalFieldMatches(e.nickname, term) || FieldMatches(e.address, term)
      || OptionalFieldMatches(e.twitterHandle, term)
  }

  /** `filteredEntries`: the matching entries, in leaderboard order. */
  function FilteredEntries(entries: seq<Entry>, term: string): (r: seq<Entry>)
    ensures forall e :: e in r <==> e in entries && EntryMatches(e, term)
    ensures IsSubsequence(r, entries)
  {
    FilterIsSubsequence(entries, e => EntryMatches(e, term));
    Filter(entries, e => EntryMatches(e, term))
  }

  /** An empty search shows every entry, since every entry has an address. */
  lemma EmptyTermKeepsAll(entries: seq<Entry>)
    ensures FilteredEntries(entries, "") == entries
  {
    forall i | 0 <= i < |entries|
      ensures EntryMatches(entries[i], "")
    {
      EmptyTermMatches(entries[i].address);
    }
    FilterKeepsAll(entries, e => EntryMatches(e, ""));
  }

  /** A trader without nickname and handle is found only by address. */
  lemma AnonymousMatchesByAddressOnly(e: Entry, term: string)
    requires e.nickname.None? && e.twitterHandle.None?
    ensures EntryMatches(e, term) <==> ContainsSubstring(ToLower(e.address), ToLower(term))
  {
  }

  /** Typing the term in upper or lower case finds the same traders. */
  lemma SearchIgnoresCase(entries: seq<Entry>, term: string)
    ensures FilteredEntries(entries, ToLower(term)) == FilteredEntries(entries, term)
  {
    ToLowerIdempotent(term);
    FilterCongruent(entries, e => EntryMatches(e, ToLower(term)), e => EntryMatches(e, term));
  }

  /** The "N traders" count: the entries that pass the search. */
  function TraderCount(entries: seq<Entry>, term: string): (r: nat)
    ensures r <= |entries|
    ensures r == CountPassing(entries, e => EntryMatches(e, term))
  {
    FilterLength(entries, e => EntryMatches(e, term));
    |FilteredEntries(entries, term)|
  }

  /** The page's own theme flag, loading flag and search box. */
  datatype PageState = PageState(isDarkMode: bool, loading: bool, searchTerm: string)

  /** The page as it mounts: dark, loading, with an empty search. */
  const InitialPage := PageState(true, true, "")

  /** The header's dark-mode button: it flips the page's flag and leaves the
      search, and so the listed traders, as they are. */
  function ToggleDarkMode(s: PageState): (r: PageState)
    ensures r.isDarkMode != s.isDarkMode
    ensures r.searchTerm == s.searchTerm && r.loading == s.loading
  {
    s.(isDarkMode := !s.isDarkMode)
  }

  /** Two clicks restore the page, and the trader count never changes. */
  lemma ToggleTwice(s: PageState, entries: seq<Entry>)
    ensures ToggleDarkMode(ToggleDarkMode(s)) == s
    ensures TraderCount(entries, ToggleDarkMode(s).searchTerm) == TraderCount(entries, s.searchTerm)
  {
  }

  /** Typing in the search box replaces the term and nothing else. */
  function TypeSearch(s: PageState, term: string): (r: PageState)
    ensures r.searchTerm == term
    ensures r.isDarkMode == s.isDarkMode && r.loading == s.loading
  {
    s.(searchTerm := term)
  }

  /** The mount effect's 1.5 s timer going off: loading ends, and the theme
      and the search stay as they are. The delay itself is not modelled,
      only the order of events. */
  function LoadingTimerFires(s: PageState): (r: PageState)
    ensures !r.loading
    ensures r.isDarkMode == s.isDarkMode && r.searchTerm == s.searchTerm
  {
    s.(loading := false)
  }

  /** What the trader panel shows: the spinner while loading, otherwise one
      row per filtered entry. */
  datatype TraderPanel = Spinner | Traders(rows: seq<Entry>)

  function Panel(s: PageState, entries: seq<Entry>): (r: TraderPanel)
    ensures r.Spinner? <==> s.loading
    ensures r.Traders? ==> forall e :: e in r.rows <==> e in entries && EntryMatches(e, s.searchTerm)
    ensures r.Traders? ==> IsSubsequence(r.rows, entries)
  {
    if s.loading then Spinner else Traders(FilteredEntries(entries, s.searchTerm))
  }

  /** The loading phase: the page mounts with the spinner, whatever is typed
      before the timer fires; once it fires with nothing typed every entry
      shows, and a term typed meanwhile filters the list as soon as it
      shows. The "N traders" count does not wait for the timer. */
  lemma LoadingPhase(entries: seq<Entry>, term: string)
    ensures Panel(InitialPage, entries) == Spinner
    ensures Panel(TypeSearch(InitialPage, term), entries) == Spinner
    ensures Panel(LoadingTimerFires(InitialPage), entries) == Traders(entries)
    ensures Panel(LoadingTimerFires(TypeSearch(InitialPage, term)), entries)
            == Panel(TypeSearch(LoadingTimerFires(InitialPage), term), entries)
    ensures TraderCount(entries, TypeSearch(InitialPage, term).searchTerm) == |FilteredEntries(entries, term)|
  {
    EmptyTermKeepsAll(entries);
  }
}
