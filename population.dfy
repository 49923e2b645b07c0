/**
 * The flat population buffer shared by every operator: candidate c owns the
 * genes at positions c * nGenes .. c * nGenes + nGenes - 1, and
 * `pop.subarray(b, e)` is the view a fitness function receives.
 */
module Population {

  /** `TypedArray.prototype.subarray(b, e)`: both ends are clamped to the length, and a reversed range is empty. */
  function SubArray<T>(s: seq<T>, b: nat, e: nat): (r: seq<T>)
    ensures b <= e <= |s| ==> r == s[b..e]
    ensures |r| <= |s|
  {
    var lo := if b <= |s| then b else |s|;
    var hi := if e <= |s| then e else |s|;
    if hi <= lo then [] else s[lo..hi]
  }

  /** The genes of candidate c: `pop.subarray(c * nGenes, c * nGenes + nGenes)`. */
  function Slice<T>(pop: seq<T>, c: nat, nGenes: nat): seq<T>
  {
    SubArray(pop, c * nGenes, c * nGenes + nGenes)
  }

  /** Is position i one of candidate c's genes? */
  predicate InSlice(i: int, c: nat, nGenes: nat)
  {
    c * nGenes <= i < c * nGenes + nGenes
  }

  /** The slices of different candidates do not overlap. */
  lemma SlicesDisjoint(i: int, c1: nat, c2: nat, nGenes: nat)
    requires InSlice(i, c1, nGenes) && InSlice(i, c2, nGenes)
    ensures c1 == c2
  {
    if c1 < c2 {
      MulLeft(c1 + 1, c2, nGenes);
    } else if c2 < c1 {
      MulLeft(c2 + 1, c1, nGenes);
    }
  }

  lemma MulLeft(a: nat, b: nat, n: nat)
    requires a <= b
    ensures a * n <= b * n
  {
  }

  /** A candidate below popSize has its whole slice inside a buffer of popSize * nGenes genes. */
  lemma SliceInBuffer(c: nat, popSize: nat, nGenes: nat)
    requires c < popSize
    ensures c * nGenes + nGenes <= popSize * nGenes
  {
    MulLeft(c + 1, popSize, nGenes);
  }

  /** A permutation of 0 .. n - 1. */
  predicate IsPermutation(s: seq<nat>, n: nat)
  {
    |s| == n && (forall i | 0 <= i < n :: s[i] < n) && (forall i, j | 0 <= i < j < n :: s[i] != s[j])
  }

  /** The slices `search` yields: candidate order[p]'s genes for every rank p, in rank order. */
  function YieldOrder(pop: seq<int>, order: seq<nat>, nGenes: nat): (y: seq<seq<int>>)
    ensures |y| == |order|
    ensures forall p | 0 <= p < |order| :: y[p] == Slice(pop, order[p], nGenes)
  {
    seq(|order|, p requires 0 <= p < |order| => SubArray(pop, nGenes * order[p], nGenes * order[p] + nGenes))
  }

  /** The ranks lo, lo + 1, ..., hi - 1. */
  function Between(lo: int, hi: int): (s: seq<int>)
    decreases hi - lo
    ensures |s| == if lo <= hi then hi - lo else 0
    ensures forall i | 0 <= i < |s| :: s[i] == lo + i
  {
    if hi <= lo then [] else Between(lo, hi - 1) + [hi - 1]
  }

  /** The candidates at two different ranks of a permutation own disjoint slices. */
  lemma RanksOwnDisjointSlices(order: seq<nat>, n: nat, r1: int, r2: int, k: int, nGenes: nat)
    requires IsPermutation(order, n) && 0 <= r1 < n && 0 <= r2 < n && r1 != r2
    ensures !(InSlice(k, order[r1], nGenes) && InSlice(k, order[r2], nGenes))
  {
    if InSlice(k, order[r1], nGenes) && InSlice(k, order[r2], nGenes) {
      SlicesDisjoint(k, order[r1], order[r2], nGenes);
    }
  }
}
