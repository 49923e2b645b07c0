/**
 * The custom operators of the daily-routine example
 * (examples/dailyRoutine.js and examples/dailyRoutine.ts): a mutation that
 * swaps two distinct genes of a candidate, and a population initialiser
 * that fills every row with a shuffle of 0 .. nGenes - 1. Genes there are
 * task indices, so each candidate is meant to stay a permutation.
 *
 * Reads outside a typed array give undefined, which the integer array
 * stores as 0, and writes outside it are ignored (Operators.Read,
 * Operators.Write).
 */
module DailyRoutine {
  import opened Wrappers
  import Operators
  import Population
  import Schedules

  // ---------------------------------------------------------------------------
  // Swapping two genes

  /** `tmp = p[i]; tmp2 = p[j]; p[j] = tmp; p[i] = tmp2` on a typed array. */
  function Swap(p: seq<int>, i: int, j: int): (q: seq<int>)
    ensures |q| == |p|
  {
    Operators.Write(Operators.Write(p, j, Operators.Read(p, i)), i, Operators.Read(p, j))
  }

  /** Updating position i replaces one occurrence of s[i] by v. */
  lemma UpdateMultiset(s: seq<int>, i: int, v: int)
    requires 0 <= i < |s|
    ensures multiset(s[i := v]) == multiset(s) - multiset{s[i]} + multiset{v}
  {
    assert s == s[..i] + [s[i]] + s[i + 1..];
    assert s[i := v] == s[..i] + [v] + s[i + 1..];
  }

  /** Inside the array, a swap exchanges the two values and keeps the multiset. */
  lemma SwapExchanges(p: seq<int>, i: int, j: int)
    requires 0 <= i < |p| && 0 <= j < |p|
    ensures Swap(p, i, j)[i] == p[j] && Swap(p, i, j)[j] == p[i]
    ensures forall k | 0 <= k < |p| && k != i && k != j :: Swap(p, i, j)[k] == p[k]
    ensures multiset(Swap(p, i, j)) == multiset(p)
  {
    var r := p[j := p[i]];
    assert Swap(p, i, j) == r[i := p[j]];
    UpdateMultiset(p, j, p[i]);
    UpdateMultiset(r, i, p[j]);
    if i != j {
      assert r[i] == p[i];
    }
  }

  /** The two gene indices of one swap, and the first draw after them. */
  datatype Pick = Pick(g1: int, g2: int, next: nat)

  /**
   * `do { g2 = floor(r * nGenes) } while (g1 === g2)` from draw `at`: the
   * first draw whose gene differs from g1, or None when the draws run out
   * first (the source then never leaves the loop).
   */
  function SecondGene(draws: seq<real>, at: nat, nGenes: nat, g1: int): (r: Option<Pick>)
    decreases |draws| - at
    ensures r.Some? ==> r.value.g1 == g1 && r.value.g2 != g1 && at < r.value.next <= |draws|
  {
    if at >= |draws| then None
    else if Operators.GeneDraw(draws[at], nGenes) == g1 then SecondGene(draws, at + 1, nGenes, g1)
    else Some(Pick(g1, Operators.GeneDraw(draws[at], nGenes), at + 1))
  }

  /** The pick of one swap from draw `at`: g1 from that draw, g2 from the following ones. */
  function PickPair(draws: seq<real>, at: nat, nGenes: nat): (r: Option<Pick>)
    ensures r.Some? ==> r.value.g1 != r.value.g2 && at + 2 <= r.value.next <= |draws|
  {
    if at >= |draws| then None else SecondGene(draws, at + 1, nGenes, Operators.GeneDraw(draws[at], nGenes))
  }

  /** With draws in [0, 1), both picked genes are below nGenes. */
  lemma {:induction false} SecondGeneInRange(draws: seq<real>, at: nat, nGenes: nat, g1: int)
    requires Operators.Draws(draws) && nGenes >= 1
    ensures var r := SecondGene(draws, at, nGenes, g1); r.Some? ==> 0 <= r.value.g2 < nGenes
    decreases |draws| - at
  {
    if at < |draws| {
      if Operators.GeneDraw(draws[at], nGenes) == g1 {
        SecondGeneInRange(draws, at + 1, nGenes, g1);
      } else {
        Schedules.FloorOfDrawBelow(draws[at], nGenes);
      }
    }
  }

  /** Both genes of a pick lie in the candidate. */
  lemma PickInRange(draws: seq<real>, at: nat, nGenes: nat)
    requires Operators.Draws(draws)
    ensures var r := PickPair(draws, at, nGenes); r.Some? ==> 0 <= r.value.g1 < nGenes && 0 <= r.value.g2 < nGenes
  {
    if at < |draws| {
      if nGenes >= 1 {
        SecondGeneInRange(draws, at + 1, nGenes, Operators.GeneDraw(draws[at], nGenes));
        Schedules.FloorOfDrawBelow(draws[at], nGenes);
      } else {
        PickNeedsTwoGenes(draws, at, nGenes);
      }
    }
  }

  /** With fewer than two genes every draw gives gene 0, so the retry loop never ends. */
  lemma {:induction false} SecondGeneNeedsTwoGenes(draws: seq<real>, at: nat, nGenes: nat)
    requires Operators.Draws(draws) && nGenes <= 1
    ensures SecondGene(draws, at, nGenes, 0) == None
    decreases |draws| - at
  {
    if at < |draws| {
      assert Operators.GeneDraw(draws[at], nGenes) == 0 by {
        if nGenes == 1 {
          Schedules.FloorOfDrawBelow(draws[at], 1);
        } else {
          assert Schedules.Times(draws[at], 0.0) == 0.0;
        }
      }
      SecondGeneNeedsTwoGenes(draws, at + 1, nGenes);
    }
  }

  /** A swap is only ever made when the candidate has at least two genes. */
  lemma PickNeedsTwoGenes(draws: seq<real>, at: nat, nGenes: nat)
    requires Operators.Draws(draws)
    ensures PickPair(draws, at, nGenes).Some? ==> nGenes >= 2
  {
    if nGenes <= 1 && at < |draws| {
      assert Operators.GeneDraw(draws[at], nGenes) == 0 by {
        if nGenes == 1 {
          Schedules.FloorOfDrawBelow(draws[at], 1);
        } else {
          assert Schedules.Times(draws[at], 0.0) == 0.0;
        }
      }
      SecondGeneNeedsTwoGenes(draws, at + 1, nGenes);
    }
  }

  /** The do-while loop that redraws g2 until it differs from g1. */
  method DrawSecond(draws: seq<real>, at: nat, nGenes: nat, g1: int) returns (r: Option<Pick>)
    ensures r == SecondGene(draws, at, nGenes, g1)
  {
    var k := at;
    while k < |draws| && Operators.GeneDraw(draws[k], nGenes) == g1
      invariant at <= k
      invariant SecondGene(draws, k, nGenes, g1) == SecondGene(draws, at, nGenes, g1)
      decreases |draws| - k
    {
      k := k + 1;
    }
    if k >= |draws| {
      return None;
    }
    r := Some(Pick(g1, Operators.GeneDraw(draws[k], nGenes), k + 1));
  }

  /**
   * mutate of dailyRoutine.js (lines 172-180), reading its draws from `at`:
   * two distinct genes of the candidate at offset change places. None when
   * the draws run out, in which case nothing is written.
   */
  method SwapMutate(draws: seq<real>, at: nat, offset: int, pop: array<int>, nGenes: nat) returns (r: Option<Pick>)
    modifies pop
    ensures r == PickPair(draws, at, nGenes)
    ensures pop[..] == if r.Some? then Swap(old(pop[..]), offset + r.value.g1, offset + r.value.g2) else old(pop[..])
  {
    if at >= |draws| {
      return None;
    }
    var g1 := Operators.GeneDraw(draws[at], nGenes);
    r := DrawSecond(draws, at + 1, nGenes, g1);
    if r.None? {
      return;
    }
    var g2 := r.value.g2;
    ghost var p := pop[..];
    var tmp := Operators.Read(pop[..], offset + g1);
    var tmp2 := Operators.Read(pop[..], offset + g2);
    if 0 <= offset + g2 < pop.Length {
      pop[offset + g2] := tmp;
    }
    assert pop[..] == Operators.Write(p, offset + g2, tmp);
    ghost var p1 := pop[..];
    if 0 <= offset + g1 < pop.Length {
      pop[offset + g1] := tmp2;
    }
    assert pop[..] == Operators.Write(p1, offset + g1, tmp2);
  }

  /** q differs from p only inside the candidate at offset, whose multiset of genes it keeps. */
  predicate SameCandidate(p: seq<int>, q: seq<int>, offset: nat, nGenes: nat)
  {
    |q| == |p| && offset + nGenes <= |p|
    && multiset(q[offset..offset + nGenes]) == multiset(p[offset..offset + nGenes])
    && forall k | 0 <= k < |p| && !(offset <= k < offset + nGenes) :: q[k] == p[k]
  }

  lemma SameCandidateTransitive(p: seq<int>, q: seq<int>, r: seq<int>, offset: nat, nGenes: nat)
    requires SameCandidate(p, q, offset, nGenes) && SameCandidate(q, r, offset, nGenes)
    ensures SameCandidate(p, r, offset, nGenes)
  {
  }

  /** A swap inside the candidate keeps the candidate's multiset of genes and every other position. */
  lemma SwapKeepsCandidate(p: seq<int>, offset: nat, nGenes: nat, g1: int, g2: int)
    requires offset + nGenes <= |p| && 0 <= g1 < nGenes && 0 <= g2 < nGenes
    ensures SameCandidate(p, Swap(p, offset + g1, offset + g2), offset, nGenes)
  {
    var q := Swap(p, offset + g1, offset + g2);
    SwapExchanges(p, offset + g1, offset + g2);
    SwapExchanges(p[offset..offset + nGenes], g1, g2);
    assert q[offset..offset + nGenes] == Swap(p[offset..offset + nGenes], g1, g2);
  }

  /** One more swap inside the candidate keeps it the same candidate as p. */
  lemma SwapAfterKeepsCandidate(p: seq<int>, mid: seq<int>, q: seq<int>, offset: nat, nGenes: nat, g1: int, g2: int)
    requires SameCandidate(p, mid, offset, nGenes) && 0 <= g1 < nGenes && 0 <= g2 < nGenes
    requires q == Swap(mid, offset + g1, offset + g2)
    ensures SameCandidate(p, q, offset, nGenes)
  {
    SwapKeepsCandidate(mid, offset, nGenes, g1, g2);
    SameCandidateTransitive(p, mid, q, offset, nGenes);
  }

  /** The swaps of a run of mutations, in order, and whether all were made before the draws ran out. */
  datatype SwapRun = SwapRun(picks: seq<Pick>, complete: bool)

  /** The picks of n more swaps from draw `at`, after the picks `made`. */
  function Swaps(draws: seq<real>, at: nat, n: nat, nGenes: nat, made: seq<Pick>): SwapRun
    decreases n
  {
    if n == 0 then SwapRun(made, true)
    else match PickPair(draws, at, nGenes)
      case None => SwapRun(made, false)
      case Some(pk) => Swaps(draws, pk.next, n - 1, nGenes, made + [pk])
  }

  /** The buffer after the swaps picks, in order, inside the candidate at offset. */
  function ApplySwaps(p: seq<int>, offset: int, picks: seq<Pick>): (q: seq<int>)
    ensures |q| == |p|
  {
    if picks == [] then p
    else
      var last := picks[|picks| - 1];
      Swap(ApplySwaps(p, offset, picks[..|picks| - 1]), offset + last.g1, offset + last.g2)
  }

  /** A run whose next pick succeeds continues after that pick. */
  lemma SwapsStep(draws: seq<real>, at: nat, n: nat, nGenes: nat, made: seq<Pick>, pk: Pick)
    requires n > 0 && PickPair(draws, at, nGenes) == Some(pk)
    ensures Swaps(draws, at, n, nGenes, made) == Swaps(draws, pk.next, n - 1, nGenes, made + [pk])
  {
  }

  /** A run whose next pick runs out of draws stops incomplete. */
  lemma SwapsStop(draws: seq<real>, at: nat, n: nat, nGenes: nat, made: seq<Pick>)
    requires n > 0 && PickPair(draws, at, nGenes).None?
    ensures Swaps(draws, at, n, nGenes, made) == SwapRun(made, false)
  {
  }

  /** One more swap at the end. */
  lemma ApplySwapsSnoc(p: seq<int>, offset: int, made: seq<Pick>, pk: Pick)
    ensures ApplySwaps(p, offset, made + [pk]) == Swap(ApplySwaps(p, offset, made), offset + pk.g1, offset + pk.g2)
  {
    assert (made + [pk])[..|made|] == made;
  }

  /** Every pick of a run lies in the candidate, given that those already made do. */
  predicate PicksIn(picks: seq<Pick>, nGenes: nat)
  {
    forall i | 0 <= i < |picks| :: 0 <= picks[i].g1 < nGenes && 0 <= picks[i].g2 < nGenes
  }

  lemma {:induction false} SwapsInRange(draws: seq<real>, at: nat, n: nat, nGenes: nat, made: seq<Pick>)
    requires Operators.Draws(draws) && PicksIn(made, nGenes)
    ensures PicksIn(Swaps(draws, at, n, nGenes, made).picks, nGenes)
    decreases n
  {
    if n > 0 {
      PickInRange(draws, at, nGenes);
      match PickPair(draws, at, nGenes)
      case None =>
      case Some(pk) =>
        SwapsInRange(draws, pk.next, n - 1, nGenes, made + [pk]);
    }
  }

  /** Swaps inside the candidate keep its multiset of genes and every other position. */
  lemma {:induction false} SwapsKeepCandidate(p: seq<int>, offset: nat, nGenes: nat, picks: seq<Pick>)
    requires offset + nGenes <= |p| && PicksIn(picks, nGenes)
    ensures SameCandidate(p, ApplySwaps(p, offset, picks), offset, nGenes)
  {
    if picks == [] {
      assert ApplySwaps(p, offset, picks) == p;
    } else {
      var init := picks[..|picks| - 1];
      var last := picks[|picks| - 1];
      var mid := ApplySwaps(p, offset, init);
      assert PicksIn(init, nGenes) by {
        forall i | 0 <= i < |init|
          ensures 0 <= init[i].g1 < nGenes && 0 <= init[i].g2 < nGenes
        {
          assert init[i] == picks[i];
        }
      }
      assert 0 <= last.g1 < nGenes && 0 <= last.g2 < nGenes;
      assert ApplySwaps(p, offset, picks) == Swap(mid, offset + last.g1, offset + last.g2);
      SwapsKeepCandidate(p, offset, nGenes, init);
      SwapAfterKeepsCandidate(p, mid, ApplySwaps(p, offset, picks), offset, nGenes, last.g1, last.g2);
    }
  }

  /** A typed-array buffer and the candidate the TypeScript engine is working on. */
  class MyGA {
    const nGenes: nat
    const popSize: nat
    const pop: array<int>
    var cIdx: nat

    /** pop holds popSize candidates and cIdx is one of them. */
    ghost predicate Valid()
      reads this
    {
      pop.Length == popSize * nGenes && cIdx < popSize
    }

    /** A zeroed population of popSize candidates, working on candidate 0. */
    constructor (nGenes: nat, popSize: nat)
      requires popSize >= 1
      ensures Valid() && fresh(pop) && pop[..] == seq(popSize * nGenes, _ => 0) && cIdx == 0
      ensures this.nGenes == nGenes && this.popSize == popSize
    {
      this.nGenes := nGenes;
      this.popSize := popSize;
      pop := new int[popSize * nGenes](_ => 0);
      cIdx := 0;
    }

    /**
     * MyGA.mutate (dailyRoutine.ts:249-258): nMutations swaps of two
     * distinct genes of candidate cIdx, each as in dailyRoutine.js. ok is
     * false when the draws run out before the last swap.
     */
    method Mutate(nMutations: nat, draws: seq<real>) returns (ok: bool)
      modifies pop
      ensures ok == Swaps(draws, 0, nMutations, nGenes, []).complete
      ensures pop[..] == ApplySwaps(old(pop[..]), nGenes * cIdx, Swaps(draws, 0, nMutations, nGenes, []).picks)
    {
      var offset := nGenes * cIdx;
      ghost var total := Swaps(draws, 0, nMutations, nGenes, []);
      ghost var made: seq<Pick> := [];
      var at := 0;
      var i := 0;
      while i < nMutations
        invariant 0 <= i <= nMutations
        invariant total == Swaps(draws, at, nMutations - i, nGenes, made)
        invariant pop[..] == ApplySwaps(old(pop[..]), offset, made)
      {
        var r := SwapMutate(draws, at, offset, pop, nGenes);
        if r.None? {
          SwapsStop(draws, at, nMutations - i, nGenes, made);
          return false;
        }
        SwapsStep(draws, at, nMutations - i, nGenes, made, r.value);
        ApplySwapsSnoc(old(pop[..]), offset, made, r.value);
        made := made + [r.value];
        at := r.value.next;
        i := i + 1;
      }
      ok := true;
    }

    /** With draws in [0, 1), mutate keeps candidate cIdx's multiset of genes and changes no other candidate. */
    lemma MutateKeepsCandidate(p: seq<int>, nMutations: nat, draws: seq<real>)
      requires Valid() && |p| == pop.Length && Operators.Draws(draws)
      ensures SameCandidate(p, ApplySwaps(p, nGenes * cIdx, Swaps(draws, 0, nMutations, nGenes, []).picks), nGenes * cIdx, nGenes)
    {
      var picks := Swaps(draws, 0, nMutations, nGenes, []).picks;
      SwapsInRange(draws, 0, nMutations, nGenes, []);
      assert nGenes * cIdx + nGenes <= |p| by {
        Population.SliceInBuffer(cIdx, popSize, nGenes);
      }
      SwapsKeepCandidate(p, nGenes * cIdx, nGenes, picks);
    }

    /**
     * MyGA.createPop (dailyRoutine.ts:260-285): the same filling as initPop
     * of dailyRoutine.js, on this.pop. It is declared to return a typed
     * array but has no return statement, so its caller would receive
     * undefined: here it has no result.
     */
    method CreatePop(draws: seq<real>)
      requires Valid() && (popSize - 1) * ShuffleDraws(nGenes) <= |draws| && Operators.Draws(draws)
      modifies pop
      ensures forall c | 0 <= c < popSize :: HoldsRow(pop[..], draws, c, nGenes)
      ensures forall c | 0 <= c < popSize :: multiset(Population.Slice(pop[..], c, nGenes)) == multiset(Operators.Upto(nGenes))
    {
      InitPop(draws, pop, popSize, nGenes);
      InitPopIsPermutations(draws, pop[..], popSize, nGenes);
    }
  }

  // ---------------------------------------------------------------------------
  // Shuffled permutations

  /** The draws one shuffle of an n-element array consumes: one per position n - 1 down to 1. */
  function ShuffleDraws(n: nat): nat
  {
    if n == 0 then 0 else n - 1
  }

  /** `j = Math.floor(Math.random() * (i + 1))` */
  function ShufflePick(r: real, i: nat): int
  {
    Schedules.Times(r, (i + 1) as real).Floor
  }

  /**
   * Draw k of the stream, or 0 past its end; Shuffle and InitPop demand
   * enough draws, so the default is never what they read.
   */
  function DrawAt(draws: seq<real>, k: nat): (r: real)
    ensures Operators.Draws(draws) ==> 0.0 <= r < 1.0
  {
    if k < |draws| then draws[k] else 0.0
  }

  /**
   * The array after the shuffle steps at positions i, i - 1, ..., 1, the
   * step at position i using draw at: `x = arr[i]; arr[i] = arr[j];
   * arr[j] = x`.
   */
  function ShuffleFrom(a: seq<int>, draws: seq<real>, at: nat, i: int): (r: seq<int>)
    ensures |r| == |a|
    decreases i
  {
    if i <= 0 then a else ShuffleFrom(Swap(a, ShufflePick(DrawAt(draws, at), i), i), draws, at + 1, i - 1)
  }

  /** Each step exchanges position i with one in [0, i], so a shuffle keeps the multiset. */
  lemma {:induction false} ShuffleKeepsMultiset(a: seq<int>, draws: seq<real>, at: nat, i: int)
    requires Operators.Draws(draws) && i < |a|
    ensures multiset(ShuffleFrom(a, draws, at, i)) == multiset(a)
    decreases i
  {
    if i > 0 {
      var j := ShufflePick(DrawAt(draws, at), i);
      assert multiset(Swap(a, j, i)) == multiset(a) by {
        Schedules.FloorOfDrawBelow(DrawAt(draws, at), i + 1);
        SwapExchanges(a, j, i);
      }
      assert ShuffleFrom(a, draws, at, i) == ShuffleFrom(Swap(a, j, i), draws, at + 1, i - 1);
      ShuffleKeepsMultiset(Swap(a, j, i), draws, at + 1, i - 1);
    }
  }

  /** shuffle (dailyRoutine.js:189-198): Fisher-Yates over arr, from the last position down to 1. */
  method Shuffle(arr: array<int>, draws: seq<real>, at: nat) returns (next: nat)
    requires at + ShuffleDraws(arr.Length) <= |draws| && Operators.Draws(draws)
    modifies arr
    ensures next == at + ShuffleDraws(arr.Length)
    ensures arr[..] == ShuffleFrom(old(arr[..]), draws, at, arr.Length - 1)
  {
    var i := arr.Length - 1;
    next := at;
    while i > 0
      invariant -1 <= i < arr.Length && next + (if i > 0 then i else 0) == at + ShuffleDraws(arr.Length)
      invariant ShuffleFrom(arr[..], draws, next, i) == ShuffleFrom(old(arr[..]), draws, at, arr.Length - 1)
    {
      var j := ShufflePick(draws[next], i);
      Schedules.FloorOfDrawBelow(draws[next], i + 1);
      ghost var a := arr[..];
      var x := arr[i];
      arr[i] := arr[j];
      arr[j] := x;
      assert arr[..] == Swap(a, j, i);
      next := next + 1;
      i := i - 1;
    }
  }

  /** Candidate c of p is row c. */
  predicate HoldsRow(p: seq<int>, draws: seq<real>, c: nat, nGenes: nat)
  {
    Population.Slice(p, c, nGenes) == Row(draws, c, nGenes)
  }

  /** Row c of the population: the identity for c = 0, and arr after c shuffles otherwise. */
  function Row(draws: seq<real>, c: nat, nGenes: nat): (r: seq<int>)
    ensures |r| == nGenes
  {
    if c == 0 then Operators.Upto(nGenes)
    else ShuffleFrom(Row(draws, c - 1, nGenes), draws, (c - 1) * ShuffleDraws(nGenes), nGenes - 1)
  }

  /** Every row is a permutation of 0 .. nGenes - 1. */
  lemma {:induction false} RowIsPermutation(draws: seq<real>, c: nat, nGenes: nat)
    requires Operators.Draws(draws)
    ensures multiset(Row(draws, c, nGenes)) == multiset(Operators.Upto(nGenes))
  {
    if c > 0 {
      var prev := Row(draws, c - 1, nGenes);
      var at := (c - 1) * ShuffleDraws(nGenes);
      assert Row(draws, c, nGenes) == ShuffleFrom(prev, draws, at, nGenes - 1);
      RowIsPermutation(draws, c - 1, nGenes);
      ShuffleKeepsMultiset(prev, draws, at, nGenes - 1);
    }
  }

  /** p with row written over its positions from offset on. */
  function Overwrite(p: seq<int>, offset: nat, row: seq<int>): (q: seq<int>)
    requires offset + |row| <= |p|
    ensures |q| == |p|
    ensures forall k | 0 <= k < |p| :: q[k] == if offset <= k < offset + |row| then row[k - offset] else p[k]
  {
    p[..offset] + row + p[offset + |row|..]
  }

  /** The row copy `pop[offset + gIdx] = arr[gIdx]` for every gene. */
  method CopyRow(arr: array<int>, pop: array<int>, offset: nat)
    requires arr != pop && offset + arr.Length <= pop.Length
    modifies pop
    ensures pop[..] == Overwrite(old(pop[..]), offset, arr[..])
  {
    var gIdx := 0;
    while gIdx < arr.Length
      invariant 0 <= gIdx <= arr.Length
      invariant forall k | 0 <= k < pop.Length :: pop[k] == if offset <= k < offset + gIdx then arr[k - offset] else old(pop[k])
    {
      pop[offset + gIdx] := arr[gIdx];
      gIdx := gIdx + 1;
    }
    assert pop[..] == Overwrite(old(pop[..]), offset, arr[..]);
  }

  /** Copying row c leaves the rows before it as they were. */
  lemma EarlierRowsKept(p: seq<int>, q: seq<int>, c: nat, cIdx: nat, nGenes: nat)
    requires c < cIdx && |p| == |q| && cIdx * nGenes <= |p|
    requires forall k | 0 <= k < cIdx * nGenes :: q[k] == p[k]
    ensures Population.Slice(q, c, nGenes) == Population.Slice(p, c, nGenes)
  {
    Population.MulLeft(c + 1, cIdx, nGenes);
    assert q[c * nGenes..c * nGenes + nGenes] == p[c * nGenes..c * nGenes + nGenes];
  }

  /**
   * One turn of initPop's loop: shuffle arr once more and copy it into
   * candidate cIdx, at offset, keeping the rows before it and the buffer
   * after it.
   */
  method AddRow(arr: array<int>, pop: array<int>, draws: seq<real>, at: nat, cIdx: nat, offset: nat, nGenes: nat,
                ghost old0: seq<int>)
    returns (next: nat)
    requires arr != pop && arr.Length == nGenes && offset == cIdx * nGenes && offset + nGenes <= pop.Length
    requires at + ShuffleDraws(nGenes) <= |draws| && Operators.Draws(draws)
    requires 1 <= cIdx && arr[..] == Row(draws, cIdx - 1, nGenes) && at == (cIdx - 1) * ShuffleDraws(nGenes)
    requires forall c | 0 <= c < cIdx :: HoldsRow(pop[..], draws, c, nGenes)
    requires |old0| == pop.Length && forall k | offset <= k < pop.Length :: pop[k] == old0[k]
    modifies arr, pop
    ensures next == at + ShuffleDraws(nGenes)
    ensures arr[..] == Row(draws, cIdx, nGenes)
    ensures forall c | 0 <= c < cIdx + 1 :: HoldsRow(pop[..], draws, c, nGenes)
    ensures forall k | offset + nGenes <= k < pop.Length :: pop[k] == old0[k]
  {
    ghost var before := pop[..];
    next := Shuffle(arr, draws, at);
    CopyRow(arr, pop, offset);
    RowsExtended(before, arr[..], draws, cIdx, offset, nGenes);
    TailKept(before, arr[..], old0, offset);
  }

  /** Writing row c into candidate cIdx keeps the rows of the candidates before it. */
  lemma RowsExtended(before: seq<int>, row: seq<int>, draws: seq<real>, cIdx: nat, offset: nat, nGenes: nat)
    requires offset == cIdx * nGenes && offset + nGenes <= |before| && row == Row(draws, cIdx, nGenes)
    requires forall c | 0 <= c < cIdx :: HoldsRow(before, draws, c, nGenes)
    ensures forall c | 0 <= c < cIdx + 1 :: HoldsRow(Overwrite(before, offset, row), draws, c, nGenes)
  {
    var after := Overwrite(before, offset, row);
    forall c | 0 <= c < cIdx
      ensures HoldsRow(after, draws, c, nGenes)
    {
      assert HoldsRow(before, draws, c, nGenes);
      EarlierRowsKept(before, after, c, cIdx, nGenes);
    }
    assert after[offset..offset + nGenes] == row;
  }

  /** Writing only [offset, offset + |row|) keeps everything after it. */
  lemma TailKept(before: seq<int>, row: seq<int>, old0: seq<int>, offset: nat)
    requires |before| == |old0| && offset + |row| <= |before|
    requires forall k | offset <= k < |before| :: before[k] == old0[k]
    ensures forall k | offset + |row| <= k < |before| :: Overwrite(before, offset, row)[k] == old0[k]
  {
  }

  /** `arr` as the identity, copied into candidate 0 by initPop's first loop. */
  method FirstRow(draws: seq<real>, pop: array<int>, nGenes: nat) returns (arr: array<int>)
    requires nGenes <= pop.Length
    modifies pop
    ensures fresh(arr) && arr.Length == nGenes && arr[..] == Row(draws, 0, nGenes)
    ensures HoldsRow(pop[..], draws, 0, nGenes)
    ensures forall k | nGenes <= k < pop.Length :: pop[k] == old(pop[k])
  {
    arr := new int[nGenes](i requires 0 <= i < nGenes => i);
    assert arr[..] == Operators.Upto(nGenes);
    CopyRow(arr, pop, 0);
    assert Population.Slice(pop[..], 0, nGenes) == pop[..nGenes];
  }

  /** Turn cIdx of initPop's loop writes inside the buffer and has the draws of one shuffle left. */
  lemma TurnBounds(cIdx: nat, popSize: nat, nGenes: nat, length: nat, at: nat, perShuffle: nat, nDraws: nat)
    requires 1 <= cIdx < popSize && popSize * nGenes <= length
    requires at == (cIdx - 1) * perShuffle && (popSize - 1) * perShuffle <= nDraws
    ensures cIdx * nGenes + nGenes <= length && cIdx * nGenes + nGenes == (cIdx + 1) * nGenes
    ensures at + perShuffle == cIdx * perShuffle <= nDraws
  {
    Population.SliceInBuffer(cIdx, popSize, nGenes);
    Population.MulLeft(cIdx, popSize - 1, perShuffle);
  }

  /**
   * initPop of dailyRoutine.js (lines 187-209): candidate 0 is the identity
   * 0, 1, ..., nGenes - 1, and each later candidate a copy of arr after one
   * more shuffle; InitPopIsPermutations shows every candidate is then a
   * permutation of 0 .. nGenes - 1.
   */
  method InitPop(draws: seq<real>, pop: array<int>, popSize: nat, nGenes: nat)
    requires popSize >= 1 && popSize * nGenes <= pop.Length
    requires (popSize - 1) * ShuffleDraws(nGenes) <= |draws| && Operators.Draws(draws)
    modifies pop
    ensures forall c | 0 <= c < popSize :: HoldsRow(pop[..], draws, c, nGenes)
    ensures forall k | popSize * nGenes <= k < pop.Length :: pop[k] == old(pop[k])
  {
    assert nGenes <= pop.Length by {
      Population.MulLeft(1, popSize, nGenes);
    }
    var arr := FirstRow(draws, pop, nGenes);
    var at := 0;
    var cIdx := 1;
    ghost var end := nGenes;
    while cIdx < popSize
      invariant 1 <= cIdx <= popSize && at == (cIdx - 1) * ShuffleDraws(nGenes) && end == cIdx * nGenes
      invariant arr[..] == Row(draws, cIdx - 1, nGenes)
      invariant forall c | 0 <= c < cIdx :: HoldsRow(pop[..], draws, c, nGenes)
      invariant forall k | end <= k < pop.Length :: pop[k] == old(pop[k])
    {
      var offset := cIdx * nGenes;
      TurnBounds(cIdx, popSize, nGenes, pop.Length, at, ShuffleDraws(nGenes), |draws|);
      at := AddRow(arr, pop, draws, at, cIdx, offset, nGenes, old(pop[..]));
      end := offset + nGenes;
      cIdx := cIdx + 1;
    }
  }

  /** A population whose rows are those of InitPop holds a permutation of 0 .. nGenes - 1 in every candidate. */
  lemma InitPopIsPermutations(draws: seq<real>, p: seq<int>, popSize: nat, nGenes: nat)
    requires popSize >= 1 && popSize * nGenes <= |p|
    requires (popSize - 1) * ShuffleDraws(nGenes) <= |draws| && Operators.Draws(draws)
    requires forall c | 0 <= c < popSize :: HoldsRow(p, draws, c, nGenes)
    ensures forall c | 0 <= c < popSize :: multiset(Population.Slice(p, c, nGenes)) == multiset(Operators.Upto(nGenes))
  {
    forall c | 0 <= c < popSize
      ensures multiset(Population.Slice(p, c, nGenes)) == multiset(Operators.Upto(nGenes))
    {
      assert HoldsRow(p, draws, c, nGenes);
      RowIsPermutation(draws, c, nGenes);
    }
  }
}
