/** The side panel's token list: search, the selection marker, clicking a
    token, and which of loading, error, "No tokens found" and the rows show. */
module SimpleTokenList {
  import opened Base
  import opened Types
  import opened Search
  import opened ThemeContext

  /** `selectedToken?.address === token.address`. */
  predicate IsSelected(selected: Option<Token>, t: Token) {
    selected.Some? && selected.value.address == t.address
  }

  /** One visible row: the token and whether it carries the marker. */
  datatype Row = Row(token: Token, isSelected: bool)

  /** What the panel shows for a provider state and a search term. */
  datatype Panel = Panel(showLoading: bool, showError: bool, showEmpty: bool, rows: seq<Row>)

  /** The panel's body. */
  function Render(s: TokenState, term: string): (r: Panel)
    ensures r.showLoading == s.loading && r.showError == Truthy(s.error)
    ensures r.showEmpty <==>
              (!s.loading && !Truthy(s.error) && forall t :: t in s.tokens ==> !TokenMatches(t, term))
    ensures (s.loading || Truthy(s.error)) ==> r.rows == []
    ensures forall i :: 0 <= i < |r.rows| ==>
              r.rows[i].token in s.tokens && TokenMatches(r.rows[i].token, term)
              && (r.rows[i].isSelected <==> IsSelected(s.selectedToken, r.rows[i].token))
    ensures !s.loading && !Truthy(s.error) ==>
              |r.rows| == |FilterTokens(s.tokens, term)|
              && forall i :: 0 <= i < |r.rows| ==> r.rows[i].token == FilterTokens(s.tokens, term)[i]
  {
    var filtered := FilterTokens(s.tokens, term);
    var listed := !s.loading && !Truthy(s.error);
    var rows := if listed then seq(|filtered|, i requires 0 <= i < |filtered| =>
                  Row(filtered[i], IsSelected(s.selectedToken, filtered[i])))
                else [];
    NoMatchIff(s.tokens, term);
    Panel(s.loading, Truthy(s.error), listed && |filtered| == 0, rows)
  }

  /** "No tokens found" and the rows never show together, and once loaded
      without error one of the two always shows. */
  lemma EmptyMessageExcludesRows(s: TokenState, term: string)
    ensures Render(s, term).showEmpty ==> Render(s, term).rows == []
    ensures !s.loading && !Truthy(s.error) ==> Render(s, term).showEmpty || |Render(s, term).rows| > 0
  {
  }

  /** An empty error message hides nothing: the list still shows. */
  lemma EmptyErrorShowsList(s: TokenState, term: string)
    requires !s.loading && s.error == Some("")
    ensures !Render(s, term).showError
    ensures |Render(s, term).rows| == |FilterTokens(s.tokens, term)|
  {
  }

  /** With nothing selected no row carries the marker. */
  lemma NoSelectionNoMarker(s: TokenState, term: string, i: int)
    requires s.selectedToken.None? && 0 <= i < |Render(s, term).rows|
    ensures !Render(s, term).rows[i].isSelected
  {
  }

  /** `handleTokenSelect`: the new provider state and the token passed to
      `onFetchData`, which is called only when the prop is supplied. */
  function HandleTokenSelect(s: TokenState, t: Token, hasFetchData: bool): (r: (TokenState, Option<Token>))
    ensures r.0.selectedToken == Some(t)
    ensures r.0.tokens == s.tokens && r.0.loading == s.loading && r.0.error == s.error
    ensures r.1.Some? <==> hasFetchData
    ensures r.1.Some? ==> r.1.value == t
  {
    (SelectToken(s, t), if hasFetchData then Some(t) else None)
  }

  /** After clicking a listed token its row carries the marker, and so does
      every row with the same address and no other. */
  lemma ClickMarksRow(s: TokenState, term: string, t: Token, hasFetchData: bool, i: int)
    requires 0 <= i < |Render(HandleTokenSelect(s, t, hasFetchData).0, term).rows|
    ensures var row := Render(HandleTokenSelect(s, t, hasFetchData).0, term).rows[i];
            row.isSelected <==> row.token.address == t.address
  {
  }
}
