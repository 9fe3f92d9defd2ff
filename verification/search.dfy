/** The case-insensitive search boxes: a field matches when the lowered
    search term occurs in the lowered field, and the token lists keep the
    tokens whose name or symbol matches. */
module Search {
  import opened Base
  import opened Types
  import opened JsStrings
  import opened ListOps

  /** `field.toLowerCase().includes(term.toLowerCase())`. */
  function FieldMatches(field: string, term: string): (r: bool)
    ensures r <==> ContainsSubstring(ToLower(field), ToLower(term))
  {
    Includes(ToLower(field), ToLower(term))
  }

  /** `field?.toLowerCase().includes(...)`: an absent field yields
      `undefined`, which the filter reads as false. */
  function OptionalFieldMatches(field: Option<string>, term: string): (r: bool)
    ensures r <==> field.Some? && ContainsSubstring(ToLower(field.value), ToLower(term))
  {
    match field
    case Some(f) => FieldMatches(f, term)
    case None => false
  }

  /** The empty term occurs in every field. */
  lemma EmptyTermMatches(field: string)
    ensures FieldMatches(field, "")
  {
    EmptyIncluded(ToLower(field));
  }

  /** Matching ignores the case of the term and of the field. */
  lemma MatchIgnoresCase(field: string, term: string)
    ensures FieldMatches(field, ToLower(term)) == FieldMatches(field, term)
    ensures FieldMatches(ToLower(field), term) == FieldMatches(field, term)
  {
    ToLowerIdempotent(term);
    ToLowerIdempotent(field);
  }

  /** Two terms that differ only in the case of their letters match the same
      fields, and so do two fields that differ only in case. */
  lemma CaseVariantsMatchAlike(field: string, field': string, term: string, term': string)
    requires SameUpToCase(field, field') && SameUpToCase(term, term')
    ensures FieldMatches(field, term) == FieldMatches(field', term')
  {
    SameUpToCaseIff(field, field');
    SameUpToCaseIff(term, term');
  }

  /** Every field matches itself, whatever its case. */
  lemma FieldMatchesItself(field: string)
    ensures FieldMatches(field, field)
  {
    SelfIncluded(ToLower(field));
  }

  /** The token filter of both token lists: name or symbol matches. */
  predicate TokenMatches(t: Token, term: string) {
    FieldMatches(t.name, term) || FieldMatches(t.symbol, term)
  }

  /** `tokens.filter(...)` on the search term: the matching tokens, in their
      original order. */
  function FilterTokens(tokens: seq<Token>, term: string): (r: seq<Token>)
    ensures forall t :: t in r <==> t in tokens && TokenMatches(t, term)
    ensures IsSubsequence(r, tokens)
  {
    FilterIsSubsequence(tokens, t => TokenMatches(t, term));
    Filter(tokens, t => TokenMatches(t, term))
  }

  /** An empty search term lists every token. */
  lemma EmptyTermKeepsAllTokens(tokens: seq<Token>)
    ensures FilterTokens(tokens, "") == tokens
  {
    forall i | 0 <= i < |tokens|
      ensures TokenMatches(tokens[i], "")
    {
      EmptyTermMatches(tokens[i].name);
    }
    FilterKeepsAll(tokens, t => TokenMatches(t, ""));
  }

  /** Searching for a token's own symbol keeps that token. */
  lemma OwnSymbolFindsToken(tokens: seq<Token>, t: Token)
    requires t in tokens
    ensures t in FilterTokens(tokens, t.symbol)
  {
    FieldMatchesItself(t.symbol);
  }

  /** The filtered list is empty exactly when no token matches. */
  lemma NoMatchIff(tokens: seq<Token>, term: string)
    ensures |FilterTokens(tokens, term)| == 0 <==> forall t :: t in tokens ==> !TokenMatches(t, term)
  {
    var r := FilterTokens(tokens, term);
    if |r| > 0 {
      assert r[0] in r;
    }
  }
}
