/**
 * `Array.prototype.sort(compare)` on the index arrays both engines re-sort
 * every round (candIdxs in index.js, idxs in index.ts). The indices are a
 * permutation of the candidates, and `ahead(x, y)` holds when the
 * comparator returns a negative number for x and y, so x is to go ahead of
 * y. ECMAScript leaves the algorithm open; the model sorts by insertion,
 * which keeps the indices a permutation whatever the comparator does, and
 * sorts them whenever the comparator is a strict weak order on the
 * candidates.
 */
module Sort {
  import opened JsNumber
  import Population

  /** No index is to go ahead of one placed before it. */
  ghost predicate SortedBy(s: seq<nat>, ahead: (nat, nat) -> bool)
  {
    forall i, j | 0 <= i < j < |s| :: !ahead(s[j], s[i])
  }

  /**
   * `ahead` is a strict weak order on the candidates 0 .. n - 1: never both
   * ways round, and "not ahead" is transitive. A consistent comparator, as
   * ECMAScript requires one for a defined order, is one.
   */
  ghost predicate StrictWeakBelow(ahead: (nat, nat) -> bool, n: nat)
  {
    (forall x: nat, y: nat | x < n && y < n :: ahead(x, y) ==> !ahead(y, x))
    && (forall x: nat, y: nat, z: nat | x < n && y < n && z < n :: !ahead(x, y) && !ahead(y, z) ==> !ahead(x, z))
  }

  /** s with the entries at j - 1 and j exchanged. */
  function SwapDown(s: seq<nat>, j: nat): (t: seq<nat>)
    requires 0 < j < |s|
    ensures |t| == |s| && multiset(t) == multiset(s)
  {
    s[j - 1 := s[j]][j := s[j - 1]]
  }

  /** An adjacent swap keeps a permutation a permutation. */
  lemma SwapKeepsPermutation(s: seq<nat>, j: nat, n: nat)
    requires Population.IsPermutation(s, n) && 0 < j < |s|
    ensures Population.IsPermutation(SwapDown(s, j), n)
  {
    var t := SwapDown(s, j);
    forall p, q | 0 <= p < q < n
      ensures t[p] != t[q]
    {
      var p' := if p == j - 1 then j else if p == j then j - 1 else p;
      var q' := if q == j - 1 then j else if q == j then j - 1 else q;
      assert t[p] == s[p'] && t[q] == s[q'] && p' != q';
    }
  }

  /** While entry j sinks through s[..i + 1]: the other entries are in order, and none after j is to go ahead of it. */
  ghost predicate Sinking(s: seq<nat>, i: nat, j: nat, ahead: (nat, nat) -> bool)
    requires j <= i < |s|
  {
    (forall p, q | 0 <= p < q <= i && p != j && q != j :: !ahead(s[q], s[p]))
    && (forall q | j < q <= i :: !ahead(s[q], s[j]))
  }

  /** Entry i starts to sink into a sorted prefix s[..i]. */
  lemma SinkStart(s: seq<nat>, i: nat, ahead: (nat, nat) -> bool)
    requires i < |s| && SortedBy(s[..i], ahead)
    ensures Sinking(s, i, i, ahead)
  {
    forall p, q | 0 <= p < q <= i && p != i && q != i
      ensures !ahead(s[q], s[p])
    {
      assert s[..i][p] == s[p] && s[..i][q] == s[q];
    }
  }

  /** One swap moves the sinking entry from j to j - 1, past an entry it goes ahead of. */
  lemma SinkStep(s: seq<nat>, i: nat, j: nat, n: nat, ahead: (nat, nat) -> bool)
    requires StrictWeakBelow(ahead, n) && Population.IsPermutation(s, n)
    requires 0 < j <= i < |s| && Sinking(s, i, j, ahead) && ahead(s[j], s[j - 1])
    ensures Sinking(SwapDown(s, j), i, j - 1, ahead)
  {
    var t := SwapDown(s, j);
    assert !ahead(s[j - 1], s[j]);
    forall p, q | 0 <= p < q <= i && p != j - 1 && q != j - 1
      ensures !ahead(t[q], t[p])
    {
      var p' := if p == j then j - 1 else p;
      var q' := if q == j then j - 1 else q;
      assert t[p] == s[p'] && t[q] == s[q'];
    }
  }

  /** The sinking entry stops below an entry it does not go ahead of, or at the front: s[..i + 1] is sorted. */
  lemma SinkDone(s: seq<nat>, i: nat, j: nat, n: nat, ahead: (nat, nat) -> bool)
    requires StrictWeakBelow(ahead, n) && Population.IsPermutation(s, n)
    requires j <= i < |s| && Sinking(s, i, j, ahead) && (j == 0 || !ahead(s[j], s[j - 1]))
    ensures SortedBy(s[..i + 1], ahead)
  {
    forall p, q | 0 <= p < q <= i
      ensures !ahead(s[q], s[p])
    {
      if q == j && p < j - 1 {
        assert !ahead(s[j - 1], s[p]);
        assert s[q] < n && s[j - 1] < n && s[p] < n;
      }
    }
  }

  /**
   * The sort, as an insertion sort by adjacent swaps: the indices stay a
   * permutation of the candidates (the same multiset), and they end up
   * sorted when `ahead` is a strict weak order on the candidates.
   */
  method InsertionSort(a: array<nat>, n: nat, ahead: (nat, nat) -> bool)
    requires Population.IsPermutation(a[..], n)
    modifies a
    ensures Population.IsPermutation(a[..], n) && multiset(a[..]) == multiset(old(a[..]))
    ensures StrictWeakBelow(ahead, n) ==> SortedBy(a[..], ahead)
  {
    ghost var weak := StrictWeakBelow(ahead, n);
    var i := 0;
    while i < a.Length
      invariant 0 <= i <= a.Length
      invariant Population.IsPermutation(a[..], n) && multiset(a[..]) == multiset(old(a[..]))
      invariant weak ==> SortedBy(a[..i], ahead)
    {
      if weak {
        SinkStart(a[..], i, ahead);
      }
      var j := i;
      while 0 < j && ahead(a[j], a[j - 1])
        invariant 0 <= j <= i
        invariant Population.IsPermutation(a[..], n) && multiset(a[..]) == multiset(old(a[..]))
        invariant weak ==> Sinking(a[..], i, j, ahead)
      {
        ghost var before := a[..];
        SwapKeepsPermutation(before, j, n);
        if weak {
          SinkStep(before, i, j, n, ahead);
        }
        a[j - 1], a[j] := a[j], a[j - 1];
        assert a[..] == SwapDown(before, j);
        j := j - 1;
      }
      if weak {
        SinkDone(a[..], i, j, n, ahead);
      }
      i := i + 1;
    }
    assert a[..a.Length] == a[..];
  }

  /** The comparator `(x, y) => s[x] > s[y] ? -1 : 1` (index.js:302, 318): x goes ahead of y when it scores higher. */
  function ByScore(s: seq<Num>): (nat, nat) -> bool
  {
    (x: nat, y: nat) => Gt(At(s, x), At(s, y))
  }

  /** Best first: no candidate scores higher than one ranked before it, with every score a number. */
  ghost predicate RankedBy(order: seq<nat>, s: seq<Num>)
  {
    forall i, j | 0 <= i < j < |order| :: Ge(At(s, order[i]), At(s, order[j]))
  }

  /** With no NaN among the candidates' scores, the score comparator is a strict weak order on them. */
  lemma ByScoreIsStrictWeak(s: seq<Num>, n: nat)
    requires forall c | 0 <= c < n :: At(s, c) != NaN
    ensures StrictWeakBelow(ByScore(s), n)
  {
    forall x: nat, y: nat, z: nat | x < n && y < n && z < n
      ensures !Gt(At(s, x), At(s, y)) && !Gt(At(s, y), At(s, z)) ==> !Gt(At(s, x), At(s, z))
    {
      assert At(s, x) != NaN && At(s, y) != NaN && At(s, z) != NaN;
    }
  }

  /** Sorted by the score comparator, with no NaN score, is best first. */
  lemma SortedByScoreIsRanked(order: seq<nat>, s: seq<Num>, n: nat)
    requires forall c | 0 <= c < n :: At(s, c) != NaN
    requires Population.IsPermutation(order, n) && SortedBy(order, ByScore(s))
    ensures RankedBy(order, s)
  {
    forall i, j | 0 <= i < j < |order|
      ensures Ge(At(s, order[i]), At(s, order[j]))
    {
      assert !Gt(At(s, order[j]), At(s, order[i]));
      assert At(s, order[i]) != NaN && At(s, order[j]) != NaN;
    }
  }
}
