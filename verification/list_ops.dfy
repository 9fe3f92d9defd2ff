/** `Array.prototype.filter` and the order-preservation property every
    search box of the dashboard relies on. */
module ListOps {

  /** `s.filter(p)`. */
  function Filter<T>(s: seq<T>, p: T -> bool): (r: seq<T>)
    ensures |r| <= |s|
    ensures forall i :: 0 <= i < |r| ==> r[i] in s && p(r[i])
    ensures forall i :: 0 <= i < |s| && p(s[i]) ==> s[i] in r
  {
    if |s| == 0 then []
    else (if p(s[0]) then [s[0]] else []) + Filter(s[1..], p)
  }

  /** `idx` lists, in increasing order, positions of `s` whose elements form `sub`. */
  ghost predicate Embedding<T>(sub: seq<T>, s: seq<T>, idx: seq<int>) {
    && |idx| == |sub|
    && (forall i :: 0 <= i < |idx| ==> 0 <= idx[i] < |s| && s[idx[i]] == sub[i])
    && (forall i, j :: 0 <= i < j < |idx| ==> idx[i] < idx[j])
  }

  /** `sub` is `s` with some elements left out and the rest in their order. */
  ghost predicate IsSubsequence<T>(sub: seq<T>, s: seq<T>) {
    exists idx :: Embedding(sub, s, idx)
  }

  function Shift(idx: seq<int>, k: int): (r: seq<int>)
    ensures |r| == |idx|
    ensures forall i :: 0 <= i < |r| ==> r[i] == idx[i] + k
  {
    seq(|idx|, i requires 0 <= i < |idx| => idx[i] + k)
  }

  /** An embedding of `sub` into `s[1..]`, shifted by one, embeds `sub` into
      `s`, and also `[s[0]] + sub` when position 0 is put in front. */
  lemma ExtendEmbedding<T>(sub: seq<T>, s: seq<T>, idx: seq<int>, keepFirst: bool)
    requires |s| > 0 && Embedding(sub, s[1..], idx)
    ensures keepFirst ==> Embedding([s[0]] + sub, s, [0] + Shift(idx, 1))
    ensures !keepFirst ==> Embedding(sub, s, Shift(idx, 1))
  {
    var shifted := Shift(idx, 1);
    forall i | 0 <= i < |shifted|
      ensures 0 <= shifted[i] < |s| && s[shifted[i]] == sub[i]
    {
      assert s[1..][idx[i]] == s[idx[i] + 1];
    }
    if keepFirst {
      var e, t := [0] + shifted, [s[0]] + sub;
      forall i | 0 <= i < |e|
        ensures 0 <= e[i] < |s| && s[e[i]] == t[i]
      {
        if i > 0 {
          assert e[i] == shifted[i - 1] && t[i] == sub[i - 1];
        }
      }
    }
  }

  /** The filtered list is a subsequence of the input: filtering keeps the
      relative order of what it keeps. */
  lemma {:induction false} FilterIsSubsequence<T>(s: seq<T>, p: T -> bool)
    ensures IsSubsequence(Filter(s, p), s)
    decreases |s|
  {
    if |s| == 0 {
      assert Embedding(Filter(s, p), s, []);
    } else {
      var rest := Filter(s[1..], p);
      FilterIsSubsequence(s[1..], p);
      var idx :| Embedding(rest, s[1..], idx);
      ExtendEmbedding(rest, s, idx, p(s[0]));
      if p(s[0]) {
        assert Filter(s, p) == [s[0]] + rest;
        assert Embedding(Filter(s, p), s, [0] + Shift(idx, 1));
      } else {
        assert Filter(s, p) == rest;
        assert Embedding(Filter(s, p), s, Shift(idx, 1));
      }
    }
  }

  /** A filter that keeps everything returns its input unchanged. */
  lemma {:induction false} FilterKeepsAll<T>(s: seq<T>, p: T -> bool)
    requires forall i :: 0 <= i < |s| ==> p(s[i])
    ensures Filter(s, p) == s
    decreases |s|
  {
    if |s| > 0 {
      FilterKeepsAll(s[1..], p);
    }
  }

  /** Number of positions of `s` that pass `p`. */
  function CountPassing<T>(s: seq<T>, p: T -> bool): nat {
    if |s| == 0 then 0 else (if p(s[0]) then 1 else 0) + CountPassing(s[1..], p)
  }

  /** Filtering drops exactly the positions failing the predicate. */
  lemma {:induction false} FilterLength<T>(s: seq<T>, p: T -> bool)
    ensures |Filter(s, p)| == CountPassing(s, p)
    decreases |s|
  {
    if |s| > 0 {
      FilterLength(s[1..], p);
    }
  }

  /** Filters with predicates that agree on the list give the same result. */
  lemma {:induction false} FilterCongruent<T>(s: seq<T>, p: T -> bool, q: T -> bool)
    requires forall i :: 0 <= i < |s| ==> p(s[i]) == q(s[i])
    ensures Filter(s, p) == Filter(s, q)
    decreases |s|
  {
    if |s| > 0 {
      FilterCongruent(s[1..], p, q);
    }
  }

  /** Non-increasing by `key`. */
  predicate SortedBy<T>(s: seq<T>, key: T -> real) {
    forall i, j :: 0 <= i < j < |s| ==> key(s[i]) >= key(s[j])
  }

  /** An element ranking at least as high as the head of an ordered list can
      go in front of it. */
  lemma ConsSorted<T>(t: T, s: seq<T>, key: T -> real)
    requires SortedBy(s, key)
    requires |s| > 0 ==> key(t) >= key(s[0])
    ensures SortedBy([t] + s, key)
  {
    var r := [t] + s;
    forall i, j | 0 <= i < j < |r|
      ensures key(r[i]) >= key(r[j])
    {
      if i == 0 && j > 1 {
        assert r[j] == s[j - 1] && r[1] == s[0];
      }
    }
  }

  /** Puts `t` in front of the first element it does not rank below. */
  function Insert<T>(t: T, s: seq<T>, key: T -> real): (r: seq<T>)
    requires SortedBy(s, key)
    ensures SortedBy(r, key)
    ensures multiset(r) == multiset(s) + multiset{t}
    ensures |r| == |s| + 1
    ensures r[0] == t || (|s| > 0 && r[0] == s[0])
    decreases |s|
  {
    if |s| == 0 then [t]
    else if key(t) >= key(s[0]) then
      ConsSorted(t, s, key);
      [t] + s
    else
      assert SortedBy(s[1..], key);
      var rest := Insert(t, s[1..], key);
      assert s == [s[0]] + s[1..];
      ConsSorted(s[0], rest, key);
      [s[0]] + rest
  }

  /** `sort((a, b) => key(b) - key(a))`: insertion sort that puts the larger
      key first. */
  function Sort<T>(s: seq<T>, key: T -> real): (r: seq<T>)
    ensures SortedBy(r, key)
    ensures multiset(r) == multiset(s)
    ensures |r| == |s|
    decreases |s|
  {
    if |s| == 0 then []
    else
      assert s == [s[0]] + s[1..];
      Insert(s[0], Sort(s[1..], key), key)
  }

  /** Sorting an already ordered list changes nothing. */
  lemma {:induction false} SortOfSorted<T>(s: seq<T>, key: T -> real)
    requires SortedBy(s, key)
    ensures Sort(s, key) == s
    decreases |s|
  {
    if |s| > 0 {
      var rest := s[1..];
      assert SortedBy(rest, key);
      SortOfSorted(rest, key);
      if |rest| > 0 {
        assert key(s[0]) >= key(rest[0]);
      }
      assert s == [s[0]] + rest;
    }
  }

  /** Sorting twice is sorting once. */
  lemma SortIdempotent<T>(s: seq<T>, key: T -> real)
    ensures Sort(Sort(s, key), key) == Sort(s, key)
  {
    SortOfSorted(Sort(s, key), key);
  }
}
