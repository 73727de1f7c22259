/** Order-preserving selection from sequences, as JavaScript's `Array.prototype.filter` does it. */
module Seqs {

  /** The elements of `s` that satisfy `p`, in their original order. */
  function Filter<T>(s: seq<T>, p: T -> bool): (r: seq<T>)
    ensures |r| <= |s|
    ensures forall x :: x in r ==> x in s && p(x)
    decreases |s|
  {
    if s == [] then []
    else
      var init := Filter(s[..|s| - 1], p);
      if p(s[|s| - 1]) then init + [s[|s| - 1]] else init
  }

  /** No element of `s` occurs twice. */
  predicate NoDuplicates<T(==)>(s: seq<T>) {
    forall a, b :: 0 <= a < b < |s| ==> s[a] != s[b]
  }

  /** The positions in `s` of the elements that `Filter(s, p)` keeps. */
  ghost function FilterIndices<T>(s: seq<T>, p: T -> bool): seq<int>
    decreases |s|
  {
    if s == [] then []
    else
      var init := FilterIndices(s[..|s| - 1], p);
      if p(s[|s| - 1]) then init + [|s| - 1] else init
  }

  /** `r` is the subsequence of `s` at the strictly increasing positions `idx`. */
  ghost predicate Picks<T>(r: seq<T>, s: seq<T>, idx: seq<int>) {
    && |idx| == |r|
    && (forall k :: 0 <= k < |idx| ==> 0 <= idx[k] < |s| && r[k] == s[idx[k]])
    && (forall a, b :: 0 <= a < b < |idx| ==> idx[a] < idx[b])
  }

  /** `r` is an order-preserving subsequence of `s`. */
  ghost predicate IsSubsequence<T>(r: seq<T>, s: seq<T>) {
    exists idx :: Picks(r, s, idx)
  }

  /** Positions picked from a prefix of `s` pick the same elements from `s`. */
  lemma PicksFromPrefix<T>(r: seq<T>, s: seq<T>, n: nat, idx: seq<int>)
    requires n <= |s| && Picks(r, s[..n], idx)
    ensures Picks(r, s, idx)
    ensures forall k :: 0 <= k < |idx| ==> idx[k] < n
  {
    forall k | 0 <= k < |idx| ensures r[k] == s[idx[k]] {
      assert s[..n][idx[k]] == s[idx[k]];
    }
  }

  /** Picking one more position, beyond all picked ones, appends its element. */
  lemma PicksSnoc<T>(r: seq<T>, s: seq<T>, idx: seq<int>, j: int)
    requires Picks(r, s, idx) && 0 <= j < |s|
    requires forall k :: 0 <= k < |idx| ==> idx[k] < j
    ensures Picks(r + [s[j]], s, idx + [j])
  {
  }

  /** Filter keeps exactly the positions whose element satisfies `p`, in order. */
  lemma {:induction false} FilterPicks<T>(s: seq<T>, p: T -> bool)
    ensures Picks(Filter(s, p), s, FilterIndices(s, p))
    ensures forall i :: 0 <= i < |s| ==> (i in FilterIndices(s, p) <==> p(s[i]))
    decreases |s|
  {
    if s != [] {
      var last := |s| - 1;
      var init := s[..last];
      FilterPicks(init, p);
      var r := Filter(init, p);
      var idx := FilterIndices(init, p);
      PicksFromPrefix(r, s, last, idx);
      assert forall i :: 0 <= i < last ==> init[i] == s[i];
      if p(s[last]) {
        PicksSnoc(r, s, idx, last);
        assert FilterIndices(s, p) == idx + [last];
        assert Filter(s, p) == r + [s[last]];
      } else {
        assert FilterIndices(s, p) == idx;
        assert Filter(s, p) == r;
      }
    }
  }

  /** Filter yields an order-preserving subsequence. */
  lemma FilterIsSubsequence<T>(s: seq<T>, p: T -> bool)
    ensures IsSubsequence(Filter(s, p), s)
  {
    FilterPicks(s, p);
  }

  /** An element is in the filtered sequence exactly when it is in the input and satisfies `p`. */
  lemma {:induction false} FilterMembers<T>(s: seq<T>, p: T -> bool, x: T)
    ensures x in Filter(s, p) <==> x in s && p(x)
    decreases |s|
  {
    if s != [] {
      var init := s[..|s| - 1];
      FilterMembers(init, p, x);
      assert s == init + [s[|s| - 1]];
    }
  }

  /** Filtering a sequence whose every element satisfies `p` changes nothing. */
  lemma {:induction false} FilterAll<T>(s: seq<T>, p: T -> bool)
    requires forall i :: 0 <= i < |s| ==> p(s[i])
    ensures Filter(s, p) == s
    decreases |s|
  {
    if s != [] {
      var init := s[..|s| - 1];
      assert forall i :: 0 <= i < |init| ==> init[i] == s[i];
      FilterAll(init, p);
      assert init + [s[|s| - 1]] == s;
    }
  }

  /** Filtering a sequence none of whose elements satisfies `p` leaves nothing. */
  lemma {:induction false} FilterNone<T>(s: seq<T>, p: T -> bool)
    requires forall i :: 0 <= i < |s| ==> !p(s[i])
    ensures Filter(s, p) == []
    decreases |s|
  {
    if s != [] {
      var init := s[..|s| - 1];
      assert forall i :: 0 <= i < |init| ==> init[i] == s[i];
      FilterNone(init, p);
    }
  }

  /** Filter distributes over appending one element. */
  lemma FilterSnoc<T>(s: seq<T>, x: T, p: T -> bool)
    ensures Filter(s + [x], p) == Filter(s, p) + (if p(x) then [x] else [])
  {
    assert (s + [x])[..|s|] == s;
  }
}
