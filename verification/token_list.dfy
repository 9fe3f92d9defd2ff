/** The full token list: search by name or symbol, then order by the chosen
    metric, largest first; the selected token is highlighted. */
module TokenList {
  import opened Base
  import opened Types
  import opened Search
  import opened ListOps

  /** The `sortBy` choice. */
  datatype SortBy = ByVolume | ByPrice | ByChange

  /** `(t.volume24h || 0)` and its two siblings: a missing metric sorts as 0. */
  function SortKey(t: Token, key: SortBy): real {
    match key
    case ByVolume => t.volume24h.GetOr(0.0)
    case ByPrice => t.price.GetOr(0.0)
    case ByChange => t.change24h.GetOr(0.0)
  }

  /** Non-increasing by the chosen metric. */
  predicate SortedDescending(s: seq<Token>, key: SortBy) {
    SortedBy(s, t => SortKey(t, key))
  }

  /** The list's state: search box, favourites toggle and sort choice. */
  datatype ListState = ListState(searchTerm: string, favoriteOnly: bool, sortBy: SortBy)

  /** `filteredTokens`: the matching tokens, largest metric first, nothing
      added and nothing dropped. */
  function FilteredTokens(tokens: seq<Token>, st: ListState): (r: seq<Token>)
    ensures SortedDescending(r, st.sortBy)
    ensures multiset(r) == multiset(FilterTokens(tokens, st.searchTerm))
    ensures forall t :: t in r <==> t in tokens && TokenMatches(t, st.searchTerm)
  {
    var kept := FilterTokens(tokens, st.searchTerm);
    var r := Sort(kept, t => SortKey(t, st.sortBy));
    assert forall t :: t in r <==> t in multiset(r);
    assert forall t :: t in kept <==> t in multiset(kept);
    r
  }

  /** Sorting the shown list again by the same metric changes nothing. */
  lemma ResortChangesNothing(tokens: seq<Token>, st: ListState)
    ensures Sort(FilteredTokens(tokens, st), t => SortKey(t, st.sortBy)) == FilteredTokens(tokens, st)
  {
    SortOfSorted(FilteredTokens(tokens, st), t => SortKey(t, st.sortBy));
  }

  /** With an empty search the list is all tokens, reordered. */
  lemma EmptySearchListsAll(tokens: seq<Token>, st: ListState)
    requires st.searchTerm == ""
    ensures multiset(FilteredTokens(tokens, st)) == multiset(tokens)
  {
    EmptyTermKeepsAllTokens(tokens);
  }

  /** The star button only flips its own flag. */
  function ToggleFavorite(st: ListState): (r: ListState)
    ensures r.favoriteOnly != st.favoriteOnly
    ensures r.searchTerm == st.searchTerm && r.sortBy == st.sortBy
  {
    st.(favoriteOnly := !st.favoriteOnly)
  }

  /** The favourites toggle does not change which tokens are listed, nor
      their order. */
  lemma FavoriteOnlyIgnored(tokens: seq<Token>, st: ListState)
    ensures FilteredTokens(tokens, ToggleFavorite(st)) == FilteredTokens(tokens, st)
  {
  }

  /** A row is highlighted when its address is the selected token's. */
  predicate Highlighted(t: Token, selected: Token) {
    selected.address == t.address
  }

  /** With distinct addresses at most one listed row is highlighted, and a
      clicked row is highlighted once `onTokenSelect` has made it the
      selection. */
  lemma OneHighlightedRow(r: seq<Token>, selected: Token, i: int, j: int)
    requires forall a, b :: 0 <= a < b < |r| ==> r[a].address != r[b].address
    requires 0 <= i < |r| && 0 <= j < |r|
    ensures Highlighted(r[i], selected) && Highlighted(r[j], selected) ==> i == j
    ensures Highlighted(r[i], r[j]) <==> i == j
  {
  }
}
