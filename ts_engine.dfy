/**
 * The TypeScript engine of index.ts: the search-space bounds its constructor
 * derives, `randGeneVal`, `mutate`, `crossover`, the elapsed-time getter and
 * the `search` generation loop, as a class over the engine's buffers.
 *
 * The constructor here takes the option values already resolved (what the
 * getters of `optToGetter` would return); see README for why. Genes are
 * integers; storing a number into the integer typed array `pop` truncates
 * it toward zero and turns NaN and the infinities into 0.
 */
module TsEngine {
  import opened JsNumber
  import opened Wrappers
  import Arrays
  import ConstructJs
  import Operators
  import Population
  import Finished
  import Ranking
  import Schedules
  import Sort

  // ---------------------------------------------------------------------------
  // Search-space bounds (index.ts:240-262)

  datatype Bounds = Bounds(min: Num, max: Num)

  /** `2 ** (nBits - d)` where nBits may be undefined (None), which makes the power NaN. */
  function PowerOfTwo(nBits: Option<nat>, d: nat): Num
  {
    match nBits
    case None => NaN
    case Some(b) => if b >= d then Finite(ConstructJs.Pow2(b - d) as real) else NaN
  }

  /**
   * The bounds the constructor derives: a bound given in the options is
   * kept; otherwise float dtypes get the fixed float bounds, 'i' dtypes
   * [-(2 ** (nBits - 1)) + 1, 2 ** (nBits - 1) - 1] and 'u' dtypes
   * [0, 2 ** nBits - 1].
   */
  function RandValBounds(k: Arrays.Kind, nBits: Option<nat>, userMin: Option<Num>, userMax: Option<Num>): (b: Bounds)
    ensures userMin.Some? ==> b.min == userMin.value
    ensures userMax.Some? ==> b.max == userMax.value
  {
    var max :=
      if userMax.Some? then userMax.value
      else if ConstructJs.IsFloatKind(k) then Finite(ConstructJs.FLOAT_MAX_RAND_VAL)
      else if ConstructJs.IsIntKind(k) then Sub(PowerOfTwo(nBits, 1), Finite(1.0))
      else Sub(PowerOfTwo(nBits, 0), Finite(1.0));
    var min :=
      if userMin.Some? then userMin.value
      else if ConstructJs.IsFloatKind(k) then Finite(ConstructJs.FLOAT_MIN_RAND_VAL)
      else if ConstructJs.IsIntKind(k) then Add(Neg(PowerOfTwo(nBits, 1)), Finite(1.0))
      else Finite(0.0);
    Bounds(min, max)
  }

  /**
   * As written, the field `nBits` is never assigned, so it is undefined
   * (None): an integer dtype without user bounds gets NaN as its upper bound,
   * and also as its lower bound when it is an 'i' dtype.
   */
  lemma UnsetNBitsGivesNaN(k: Arrays.Kind)
    requires !ConstructJs.IsFloatKind(k)
    ensures RandValBounds(k, None, None, None).max == NaN
    ensures ConstructJs.IsIntKind(k) ==> RandValBounds(k, None, None, None).min == NaN
    ensures ConstructJs.IsUintKind(k) ==> RandValBounds(k, None, None, None).min == Finite(0.0)
  {
  }

  /**
   * With nBits = b, an 'i' dtype gets the symmetric range
   * [1 - 2 ** (b - 1), 2 ** (b - 1) - 1]; for b = Arrays.Bits(k) this is the
   * range index.js derives (ConstructJs.DefaultBoundsInt).
   */
  lemma IntBounds(k: Arrays.Kind, b: nat)
    requires ConstructJs.IsIntKind(k) && b >= 1
    ensures RandValBounds(k, Some(b), None, None) ==
      Bounds(Finite((1 - ConstructJs.Pow2(b - 1) as int) as real), Finite((ConstructJs.Pow2(b - 1) - 1) as real))
  {
    var p := ConstructJs.Pow2(b - 1) as real;
    assert PowerOfTwo(Some(b), 1) == Finite(p);
    assert Sub(Finite(p), Finite(1.0)) == Finite(p - 1.0);
    assert Add(Neg(Finite(p)), Finite(1.0)) == Finite(1.0 - p);
    assert 1.0 - p == (1 - ConstructJs.Pow2(b - 1) as int) as real;
  }

  /**
   * With nBits = b, a 'u' dtype gets [0, 2 ** b - 1]; for b = Arrays.Bits(k)
   * this is the range index.js derives (ConstructJs.DefaultBoundsUint).
   */
  lemma UintBounds(k: Arrays.Kind, b: nat)
    requires ConstructJs.IsUintKind(k)
    ensures RandValBounds(k, Some(b), None, None) == Bounds(Finite(0.0), Finite((ConstructJs.Pow2(b) - 1) as real))
  {
    var p := ConstructJs.Pow2(b) as real;
    assert PowerOfTwo(Some(b), 0) == Finite(p);
    assert Sub(Finite(p), Finite(1.0)) == Finite(p - 1.0);
  }

  // ---------------------------------------------------------------------------
  // The elapsed-time getter (index.ts:268)

  /** `startTm - Date.now()`, as written: never positive once the clock has moved on. */
  function TimeTakenAsWritten(startTm: int, now: int): int
  {
    startTm - now
  }

  /** `Date.now() - startTm`: the elapsed time the getter's name promises. */
  function TimeTaken(startTm: int, now: int): int
  {
    now - startTm
  }

  /** As written, the search can never stop on a positive time-out. */
  lemma AsWrittenNeverTimesOut(stuck: bool, rIdx: nat, nRounds: Num, startTm: int, now: int, timeOutMS: real)
    requires startTm <= now && timeOutMS > 0.0
    ensures Finished.Priority(stuck, rIdx, nRounds, TimeTakenAsWritten(startTm, now), Finite(timeOutMS)) != Finished.Timeout
  {
  }

  /** With the elapsed time the right way round, a search that is neither stuck nor out of rounds stops on time-out once timeOutMS has passed. */
  lemma ElapsedTimesOut(rIdx: nat, nRounds: Num, startTm: int, now: int, timeOutMS: real)
    requires now - startTm >= 0 && (now - startTm) as real >= timeOutMS
    requires !Ge(Finite(rIdx as real), nRounds)
    ensures Finished.Priority(false, rIdx, nRounds, TimeTaken(startTm, now), Finite(timeOutMS)) == Finished.Timeout
  {
  }

  // ---------------------------------------------------------------------------
  // randGeneVal (index.ts:286-288) and typed-array stores

  /** `randValMin + (randValMax - randValMin) * r` */
  function GeneValue(min: Num, max: Num, r: real): Num
  {
    Add(min, Mul(Sub(max, min), Finite(r)))
  }

  /** Storing into an integer typed array: truncation toward zero; NaN and the infinities become 0. */
  function StoreInt(x: Num): (n: int)
    ensures x.Finite? && x.v >= 0.0 ==> n as real <= x.v < n as real + 1.0
    ensures x.Finite? && x.v < 0.0 ==> n as real - 1.0 < x.v <= n as real
    ensures !x.Finite? ==> n == 0
  {
    match x
    case Finite(v) => if v >= 0.0 then v.Floor else -((-v).Floor)
    case _ => 0
  }

  /** With integer bounds min <= max, randGeneVal lies in [min, max) (exactly min when they are equal) and its stored value in [min, max]. */
  lemma GeneValueBetween(min: int, max: int, r: real)
    requires min <= max && 0.0 <= r < 1.0
    ensures GeneValue(Finite(min as real), Finite(max as real), r).Finite?
    ensures min as real <= GeneValue(Finite(min as real), Finite(max as real), r).v
    ensures min < max ==> GeneValue(Finite(min as real), Finite(max as real), r).v < max as real
    ensures min <= StoreInt(GeneValue(Finite(min as real), Finite(max as real), r)) <= max
  {
    GeneValueRange(min, max, r);
    StoreIntBetween(min, max, GeneValue(Finite(min as real), Finite(max as real), r).v);
  }

  /** The value part of GeneValueBetween. */
  lemma GeneValueRange(min: int, max: int, r: real)
    requires min <= max && 0.0 <= r < 1.0
    ensures GeneValue(Finite(min as real), Finite(max as real), r).Finite?
    ensures min as real <= GeneValue(Finite(min as real), Finite(max as real), r).v <= max as real
    ensures min < max ==> GeneValue(Finite(min as real), Finite(max as real), r).v < max as real
  {
    var d := max as real - min as real;
    SpanShare(d, r);
    assert GeneValue(Finite(min as real), Finite(max as real), r) == Finite(min as real + d * r) by {
      GeneValueFinite(min as real, max as real, r);
    }
  }

  /** The share of a span d a draw adds to min lies in [0, d], and below d when d is positive. */
  lemma SpanShare(d: real, r: real)
    requires d >= 0.0 && 0.0 <= r < 1.0
    ensures 0.0 <= d * r <= d
    ensures d > 0.0 ==> d * r < d
  {
    Schedules.MulMonotone(0.0, d, r);
    if d > 0.0 {
      BelowSpan(d, r);
    } else {
      assert d * r == 0.0 * r;
    }
  }

  /** A positive span scaled by a draw below 1 stays below the span. */
  lemma BelowSpan(d: real, r: real)
    requires d > 0.0 && r < 1.0
    ensures d * r < d
  {
    Schedules.PositiveProductReal(d, 1.0 - r);
    assert d * (1.0 - r) == d - d * r;
  }

  /** With finite bounds the gene value is the plain real min + (max - min) * r. */
  lemma GeneValueFinite(min: real, max: real, r: real)
    ensures GeneValue(Finite(min), Finite(max), r) == Finite(min + (max - min) * r)
  {
  }

  /** A value in [min, max] with min >= 0 or not is stored within the integer bounds. */
  lemma StoreIntBetween(min: int, max: int, v: real)
    requires min as real <= v <= max as real
    ensures min <= StoreInt(Finite(v)) <= max
  {
  }

  /** With a NaN bound every value is NaN, which an integer typed array stores as 0. */
  lemma NaNBoundStoresZero(min: Num, max: Num, r: real)
    requires min == NaN || max == NaN
    ensures GeneValue(min, max, r) == NaN && StoreInt(GeneValue(min, max, r)) == 0
  {
  }

  // ---------------------------------------------------------------------------
  // mutate (index.ts:370-375)

  /**
   * The writes of one call: write i draws its gene index from draws[2i]
   * (the index expression is evaluated first) and its value from
   * draws[2i + 1]. Nothing stops two writes from hitting the same gene.
   */
  function MutationWrites(draws: seq<real>, n: nat, nGenes: nat, min: Num, max: Num): (w: seq<Operators.Choice>)
    requires 2 * n <= |draws|
    ensures |w| == n
  {
    seq(n, i requires 0 <= i < n =>
      Operators.Choice(Operators.GeneDraw(draws[2 * i], nGenes), StoreInt(GeneValue(min, max, draws[2 * i + 1]))))
  }

  /** Every write of mutate targets a gene in [0, nGenes) and, with integer bounds, stores a value in [min, max]. */
  lemma MutationWritesInRange(draws: seq<real>, n: nat, nGenes: nat, min: int, max: int)
    requires 2 * n <= |draws| && Operators.Draws(draws) && nGenes >= 1 && min <= max
    ensures var w := MutationWrites(draws, n, nGenes, Finite(min as real), Finite(max as real));
      forall i | 0 <= i < n :: 0 <= w[i].gene < nGenes && min <= w[i].value <= max
  {
    forall i | 0 <= i < n
      ensures 0 <= Operators.GeneDraw(draws[2 * i], nGenes) < nGenes
      ensures min <= StoreInt(GeneValue(Finite(min as real), Finite(max as real), draws[2 * i + 1])) <= max
    {
      Schedules.FloorOfDrawBelow(draws[2 * i], nGenes);
      GeneValueBetween(min, max, draws[2 * i + 1]);
    }
  }

  /** Positions may repeat: two draws that floor to the same gene write it twice, and the second value wins. */
  lemma MutationMayRepeat()
    ensures MutationWrites([0.1, 0.5, 0.2, 0.5], 2, 2, Finite(0.0), Finite(10.0))[0].gene ==
            MutationWrites([0.1, 0.5, 0.2, 0.5], 2, 2, Finite(0.0), Finite(10.0))[1].gene
  {
    assert Operators.GeneDraw(0.1, 2) == 0 by {
      assert Schedules.Times(0.1, 2.0) == 0.2;
    }
    assert Operators.GeneDraw(0.2, 2) == 0 by {
      assert Schedules.Times(0.2, 2.0) == 0.4;
    }
  }

  /** The random inputs of one pass of the rank loop: the pMutate draw, the operator's draws and the selected parent. */
  datatype OpInput = OpInput(choose: real, draws: seq<real>, parent: nat)

  /** One round's inputs: the score table `score` leaves (one row per objective), and one OpInput per non-elite rank. */
  datatype RoundInput = RoundInput(scores: seq<seq<Num>>, ops: seq<OpInput>)

  /** Multiples of nGenes start slices that coincide or do not overlap. */
  lemma MultiplesAligned(a: nat, b: nat, nGenes: nat)
    ensures Operators.Aligned(a * nGenes, b * nGenes, nGenes)
  {
    if a < b {
      Population.MulLeft(a + 1, b, nGenes);
    } else if b < a {
      Population.MulLeft(b + 1, a, nGenes);
    }
  }

  class GeneticAlgorithm {
    const nGenes: nat
    const popSize: nat
    const nElite: nat
    const nMutations: nat
    const pMutate: real
    const weights: seq<Num>
    const randValMin: Num
    const randValMax: Num
    const nTrack: int
    const minImprove: Num
    const nRounds: Num
    const timeOutMS: Num
    const pop: array<int>
    const idxs: array<nat>
    const bestScores: array<Num>
    const bestCandIdxs: array<int>
    var rIdx: nat
    var rank: int
    var cIdx: nat
    /** The ranks handed to mutate or crossover so far, in order. */
    ghost var touched: seq<int>

    /** Enough draws for either operator, each in [0, 1). */
    predicate Ready(op: OpInput)
    {
      2 * nMutations <= |op.draws| && nGenes <= |op.draws| && Operators.Draws(op.draws)
    }

    /** The number of ranks the rank loop visits: popSize - nElite, or none when nElite is not below popSize. */
    function NonElite(): nat
    {
      if nElite < popSize then popSize - nElite else 0
    }

    /** idxs is a permutation of the candidates, and the gene buffer is not the best-candidate buffer. */
    ghost predicate Valid()
      reads this, idxs
    {
      Population.IsPermutation(idxs[..], popSize) && pop != bestCandIdxs
      && bestScores.Length == bestCandIdxs.Length
    }

    /**
     * A fresh engine (index.ts:184-233): idxs is 0, 1, ..., popSize - 1,
     * the best-score buffers hold one zero per objective and rIdx is 0.
     */
    constructor (genes: seq<int>, nGenes: nat, popSize: nat, nElite: nat, nMutations: nat, pMutate: real,
                 weights: seq<Num>, randValMin: Num, randValMax: Num, nTrack: int, minImprove: Num, nRounds: Num,
                 timeOutMS: Num, nObjectives: nat)
      ensures Valid() && fresh(pop) && fresh(idxs) && fresh(bestScores) && fresh(bestCandIdxs)
      ensures pop[..] == genes && idxs[..] == seq(popSize, i requires 0 <= i < popSize => i as nat)
      ensures bestScores[..] == seq(nObjectives, _ => Finite(0.0)) && bestCandIdxs[..] == seq(nObjectives, _ => 0)
      ensures rIdx == 0 && touched == []
      ensures this.nGenes == nGenes && this.popSize == popSize && this.nElite == nElite && this.nMutations == nMutations
      ensures this.pMutate == pMutate && this.weights == weights && this.randValMin == randValMin && this.randValMax == randValMax
      ensures this.nTrack == nTrack && this.minImprove == minImprove && this.nRounds == nRounds && this.timeOutMS == timeOutMS
    {
      this.nGenes := nGenes;
      this.popSize := popSize;
      this.nElite := nElite;
      this.nMutations := nMutations;
      this.pMutate := pMutate;
      this.weights := weights;
      this.randValMin := randValMin;
      this.randValMax := randValMax;
      this.nTrack := nTrack;
      this.minImprove := minImprove;
      this.nRounds := nRounds;
      this.timeOutMS := timeOutMS;
      pop := new int[|genes|](i requires 0 <= i < |genes| => genes[i]);
      idxs := new nat[popSize](i requires 0 <= i < popSize => i);
      bestScores := new Num[nObjectives](_ => Finite(0.0));
      bestCandIdxs := new int[nObjectives](_ => 0);
      rIdx := 0;
      rank := 0;
      cIdx := 0;
      touched := [];
    }

    /** mutate: nMutations writes into candidate cIdx's slice, at gene indices that may repeat. */
    method Mutate(draws: seq<real>)
      requires 2 * nMutations <= |draws|
      modifies pop
      ensures pop[..] == Operators.Apply(old(pop[..]), cIdx * nGenes, MutationWrites(draws, nMutations, nGenes, randValMin, randValMax))
    {
      var offset := cIdx * nGenes;
      ghost var writes := MutationWrites(draws, nMutations, nGenes, randValMin, randValMax);
      var i := 0;
      while i < nMutations
        invariant 0 <= i <= nMutations
        invariant pop[..] == Operators.Apply(old(pop[..]), offset, writes[..i])
      {
        var geneIdx := Operators.GeneDraw(draws[2 * i], nGenes);
        var value := StoreInt(GeneValue(randValMin, randValMax, draws[2 * i + 1]));
        assert writes[i] == Operators.Choice(geneIdx, value);
        assert writes[..i + 1] == writes[..i] + [writes[i]];
        Operators.ApplySnoc(old(pop[..]), offset, writes[..i], writes[i]);
        Operators.Store(pop, offset + geneIdx, value);
        i := i + 1;
      }
      assert writes[..nMutations] == writes;
    }

    /** As written, crossover copies each gene of the selected candidate onto itself: the buffer is unchanged. */
    method Crossover(selected: nat, draws: seq<real>)
      requires nGenes <= |draws|
      modifies pop
      ensures pop[..] == old(pop[..])
    {
      var offset := selected * nGenes;
      var gIdx := 0;
      while gIdx < nGenes
        invariant 0 <= gIdx <= nGenes
        invariant pop[..] == old(pop[..])
      {
        if draws[gIdx] < 0.5 {
          if 0 <= offset + gIdx < pop.Length {
            pop[offset + gIdx] := pop[offset + gIdx];
          }
        }
        gIdx := gIdx + 1;
      }
    }

    /**
     * crossover as intended: candidate cIdx takes the selected parent's gene
     * g when draw g is below 0.5 and keeps its own otherwise.
     */
    method CrossoverIntended(parent: nat, draws: seq<real>)
      requires nGenes <= |draws|
      modifies pop
      ensures pop[..] == Operators.Crossed(old(pop[..]), draws, parent * nGenes, cIdx * nGenes, cIdx * nGenes, nGenes)
    {
      var offset := cIdx * nGenes;
      var offset1 := parent * nGenes;
      var gIdx := 0;
      while gIdx < nGenes
        invariant 0 <= gIdx <= nGenes
        invariant pop[..] == Operators.Crossed(old(pop[..]), draws, offset1, offset, offset, gIdx)
      {
        var v := Operators.Read(pop[..], (if draws[gIdx] < 0.5 then offset1 else offset) + gIdx);
        if 0 <= offset + gIdx < pop.Length {
          pop[offset + gIdx] := v;
        }
        gIdx := gIdx + 1;
      }
    }

    /** The intended crossover leaves every other candidate alone and gives gene g of cIdx from the parent or from cIdx itself. */
    lemma CrossoverIntendedEffect(p: seq<int>, parent: nat, draws: seq<real>, k: int)
      requires nGenes <= |draws| && 0 <= k < |p|
      ensures var q := Operators.Crossed(p, draws, parent * nGenes, cIdx * nGenes, cIdx * nGenes, nGenes);
        q[k] == if Population.InSlice(k, cIdx, nGenes)
                then (if draws[k - cIdx * nGenes] < 0.5 then Operators.Read(p, parent * nGenes + (k - cIdx * nGenes)) else p[k])
                else p[k]
    {
      MultiplesAligned(parent, cIdx, nGenes);
      Operators.CrossedInherits(p, draws, parent * nGenes, cIdx * nGenes, cIdx * nGenes, nGenes, nGenes, k);
    }

    /**
     * The sort of reorder as intended, with compare bound to the engine,
     * over the score table `scores`: idxs is rearranged, sorted by compare
     * whenever compare is a strict weak order on the candidates, and best
     * first when there is one objective of positive weight and no NaN score.
     */
    method Reorder(scores: seq<seq<Num>>)
      requires Valid()
      modifies idxs
      ensures Valid() && multiset(idxs[..]) == multiset(old(idxs[..]))
      ensures Sort.StrictWeakBelow(Ranking.ByCompare(scores, weights), popSize) ==>
        Sort.SortedBy(idxs[..], Ranking.ByCompare(scores, weights))
      ensures Ranking.SingleScored(scores, weights, popSize) ==> Sort.RankedBy(idxs[..], scores[0])
    {
      Sort.InsertionSort(idxs, popSize, Ranking.ByCompare(scores, weights));
      if Ranking.SingleScored(scores, weights, popSize) {
        Ranking.SingleScoredIsStrictWeak(scores, weights, popSize);
        Ranking.SingleScoredRanked(idxs[..], scores, weights, popSize);
      }
    }

    /** One operator step at candidate cIdx: mutate when the draw is below pMutate, the intended crossover otherwise. */
    method Operate(op: OpInput)
      requires Ready(op)
      modifies pop
      ensures pop[..] == if op.choose < pMutate
        then Operators.Apply(old(pop[..]), cIdx * nGenes, MutationWrites(op.draws, nMutations, nGenes, randValMin, randValMax))
        else Operators.Crossed(old(pop[..]), op.draws, op.parent * nGenes, cIdx * nGenes, cIdx * nGenes, nGenes)
      ensures nGenes >= 1 ==> forall k | 0 <= k < pop.Length && !Population.InSlice(k, cIdx, nGenes) :: pop[k] == old(pop[k])
    {
      if op.choose < pMutate {
        Mutate(op.draws);
        if nGenes >= 1 {
          forall k | 0 <= k < pop.Length && !Population.InSlice(k, cIdx, nGenes)
            ensures pop[k] == old(pop[k])
          {
            MutationFrame(old(pop[..]), op.draws, k);
          }
        }
      } else {
        CrossoverIntended(op.parent, op.draws);
        forall k | 0 <= k < pop.Length && !Population.InSlice(k, cIdx, nGenes)
          ensures pop[k] == old(pop[k])
        {
          Operators.CrossedFrame(old(pop[..]), op.draws, op.parent * nGenes, cIdx * nGenes, cIdx * nGenes, nGenes, k);
        }
      }
    }

    /** Mutate changes nothing outside candidate cIdx's slice. */
    lemma MutationFrame(p: seq<int>, draws: seq<real>, k: int)
      requires 2 * nMutations <= |draws| && Operators.Draws(draws) && nGenes >= 1
      requires 0 <= k < |p| && !Population.InSlice(k, cIdx, nGenes)
      ensures Operators.Apply(p, cIdx * nGenes, MutationWrites(draws, nMutations, nGenes, randValMin, randValMax))[k] == p[k]
    {
      var w := MutationWrites(draws, nMutations, nGenes, randValMin, randValMax);
      forall i | 0 <= i < |w|
        ensures cIdx * nGenes + w[i].gene != k
      {
        Schedules.FloorOfDrawBelow(draws[2 * i], nGenes);
      }
      Operators.ApplyUnchanged(p, cIdx * nGenes, w, k);
    }

    /**
     * The rank loop (index.ts:439-447): ranks nElite .. popSize - 1 in
     * order, each one's candidate mutated or crossed; the candidates at the
     * elite ranks keep every gene. With nElite at least popSize the loop
     * runs zero times and no gene changes.
     */
    method RankLoop(ops: seq<OpInput>)
      requires Valid() && |ops| == NonElite() && forall i | 0 <= i < |ops| :: Ready(ops[i])
      modifies this, pop
      ensures Valid() && rIdx == old(rIdx)
      ensures touched == old(touched) + Population.Between(nElite, popSize)
      ensures forall e, k | 0 <= e < nElite && e < popSize && 0 <= k < pop.Length && Population.InSlice(k, idxs[e], nGenes) ::
        pop[k] == old(pop[k])
      ensures popSize <= nElite ==> pop[..] == old(pop[..])
    {
      rank := nElite;
      while rank < popSize
        invariant nElite <= rank && (rank <= popSize || rank == nElite) && Valid() && rIdx == old(rIdx)
        invariant touched == old(touched) + Population.Between(nElite, rank)
        invariant forall e, k | 0 <= e < nElite && e < popSize && 0 <= k < pop.Length && Population.InSlice(k, idxs[e], nGenes) ::
          pop[k] == old(pop[k])
        invariant rank == nElite ==> pop[..] == old(pop[..])
      {
        cIdx := idxs[rank];
        ghost var before := pop[..];
        Operate(ops[rank - nElite]);
        forall e, k | 0 <= e < nElite && e < popSize && 0 <= k < pop.Length && Population.InSlice(k, idxs[e], nGenes)
          ensures pop[k] == before[k]
        {
          Population.RanksOwnDisjointSlices(idxs[..], popSize, e, rank, k, nGenes);
        }
        assert Population.Between(nElite, rank + 1) == Population.Between(nElite, rank) + [rank];
        touched := touched + [rank];
        rank := rank + 1;
      }
      assert Population.Between(nElite, rank) == Population.Between(nElite, popSize);
    }

    /**
     * One pass of the search loop after isFinished said no (index.ts:404-448),
     * with the sort's comparator bound to the engine as intended: rIdx grows
     * by one, the sort rearranges idxs by compare over the round's score
     * table (best first for one objective of positive weight and no NaN
     * score), and the rank loop runs; the candidates at the elite ranks of
     * that order keep every gene.
     */
    method Round(input: RoundInput)
      requires Valid() && Playable(input)
      modifies this, pop, idxs
      ensures Valid() && rIdx == old(rIdx) + 1 && multiset(idxs[..]) == multiset(old(idxs[..]))
      ensures Ranking.SingleScored(input.scores, weights, popSize) ==> Sort.RankedBy(idxs[..], input.scores[0])
      ensures touched == old(touched) + Population.Between(nElite, popSize)
      ensures forall e, k | 0 <= e < nElite && e < popSize && 0 <= k < pop.Length && Population.InSlice(k, idxs[e], nGenes) ::
        pop[k] == old(pop[k])
      ensures popSize <= nElite ==> pop[..] == old(pop[..])
    {
      rIdx := rIdx + 1;
      Reorder(input.scores);
      RankLoop(input.ops);
    }

    /** The slices the generator yields once the loop ends (index.ts:452-455). */
    method Yield() returns (slices: seq<seq<int>>)
      requires Valid()
      ensures slices == Population.YieldOrder(pop[..], idxs[..], nGenes)
    {
      slices := [];
      var ptr := 0;
      while ptr < popSize
        invariant 0 <= ptr <= popSize
        invariant slices == Population.YieldOrder(pop[..], idxs[..ptr], nGenes)
      {
        var offset := nGenes * idxs[ptr];
        assert idxs[..ptr + 1] == idxs[..ptr] + [idxs[ptr]];
        slices := slices + [Population.SubArray(pop[..], offset, offset + nGenes)];
        ptr := ptr + 1;
      }
      assert idxs[..popSize] == idxs[..];
    }

    /** A round's inputs fit this engine: one ready input per non-elite rank. */
    predicate Playable(input: RoundInput)
    {
      |input.ops| == NonElite() && forall i | 0 <= i < |input.ops| :: Ready(input.ops[i])
    }

    /** The outcome isFinished reports at round index r after elapsedMS milliseconds. */
    ghost function Check(r: nat, elapsedMS: int): Finished.Outcome
      reads bestScores, bestCandIdxs
    {
      Finished.Priority(Finished.Improved(bestScores[..], bestCandIdxs[..], bestCandIdxs.Length, nTrack, minImprove) == 0,
                        r, nRounds, elapsedMS, timeOutMS)
    }

    /**
     * The generation loop of search (index.ts:397-455) as intended: the
     * sort's comparator bound to the engine, the elapsed time measured
     * forwards, no Infinity seed and the intended crossover. After the first
     * sort, over the score table `start`, each round checks isFinished,
     * increments rIdx, re-sorts over its own score table and runs the rank
     * loop. When a check stops the search, popSize slices are yielded in
     * idxs order. Check i sees elapsedMS[i]; when the inputs run out first,
     * stop is None.
     */
    method Generations(start: seq<seq<Num>>, rounds: seq<RoundInput>, elapsedMS: seq<nat>)
      returns (stop: Option<Finished.Outcome>, ran: nat, yielded: seq<seq<int>>)
      requires Valid() && |elapsedMS| == |rounds| + 1
      requires forall r | 0 <= r < |rounds| :: Playable(rounds[r])
      modifies this, pop, idxs
      ensures Valid() && ran <= |rounds| && rIdx == old(rIdx) + ran
      ensures forall i | 0 <= i < ran :: Check(old(rIdx) + i, elapsedMS[i]) == Finished.NotFinished
      ensures stop.Some? ==> stop.value == Check(rIdx, elapsedMS[ran]) && stop.value != Finished.NotFinished
      ensures stop.Some? ==> |yielded| == popSize && yielded == Population.YieldOrder(pop[..], idxs[..], nGenes)
      ensures stop.None? ==> ran == |rounds| && yielded == [] && Check(rIdx, elapsedMS[ran]) == Finished.NotFinished
      ensures Check(old(rIdx), elapsedMS[0]) != Finished.NotFinished ==>
        ran == 0 && pop[..] == old(pop[..]) && touched == old(touched)
      ensures Check(old(rIdx), elapsedMS[0]) != Finished.NotFinished && Ranking.SingleScored(start, weights, popSize) ==>
        Sort.RankedBy(idxs[..], start[0])
      ensures forall i | |old(touched)| <= i < |touched| :: nElite <= touched[i] < popSize
    {
      Reorder(start);
      var outcome := Finished.TsIsFinished(bestScores, bestCandIdxs, nTrack, minImprove, rIdx, nRounds, elapsedMS[0], timeOutMS);
      if outcome != Finished.NotFinished {
        stop := Some(outcome);
        yielded := Yield();
        return stop, 0, yielded;
      }
      stop, ran, yielded := Rounds(rounds, elapsedMS);
    }

    /** The rounds after a first check that did not stop the search. */
    method Rounds(rounds: seq<RoundInput>, elapsedMS: seq<nat>)
      returns (stop: Option<Finished.Outcome>, ran: nat, yielded: seq<seq<int>>)
      requires Valid() && |elapsedMS| == |rounds| + 1 && Check(rIdx, elapsedMS[0]) == Finished.NotFinished
      requires forall r | 0 <= r < |rounds| :: Playable(rounds[r])
      modifies this, pop, idxs
      ensures Valid() && ran <= |rounds| && rIdx == old(rIdx) + ran
      ensures forall i | 0 <= i < ran :: Check(old(rIdx) + i, elapsedMS[i]) == Finished.NotFinished
      ensures stop.Some? ==> stop.value == Check(rIdx, elapsedMS[ran]) && stop.value != Finished.NotFinished
      ensures stop.Some? ==> |yielded| == popSize && yielded == Population.YieldOrder(pop[..], idxs[..], nGenes)
      ensures stop.None? ==> ran == |rounds| && yielded == [] && Check(rIdx, elapsedMS[ran]) == Finished.NotFinished
      ensures forall i | |old(touched)| <= i < |touched| :: nElite <= touched[i] < popSize
    {
      ran := 0;
      var outcome := Finished.NotFinished;
      while outcome == Finished.NotFinished && ran < |rounds|
        invariant Valid() && ran <= |rounds| && rIdx == old(rIdx) + ran
        invariant forall i | 0 <= i < ran :: Check(old(rIdx) + i, elapsedMS[i]) == Finished.NotFinished
        invariant outcome == Check(rIdx, elapsedMS[ran])
        invariant forall i | |old(touched)| <= i < |touched| :: nElite <= touched[i] < popSize
        decreases |rounds| - ran
      {
        Round(rounds[ran]);
        ran := ran + 1;
        outcome := Finished.TsIsFinished(bestScores, bestCandIdxs, nTrack, minImprove, rIdx, nRounds, elapsedMS[ran], timeOutMS);
      }
      if outcome == Finished.NotFinished {
        return None, ran, [];
      }
      stop := Some(outcome);
      yielded := Yield();
    }

    /**
     * `this.idxs.sort(this.compare)` as written (index.ts:336-339): compare
     * is passed without its receiver, so in class code `this` is undefined
     * inside it and its first read, `this.fitness` (index.ts:324), throws a
     * TypeError. The sort calls the comparator as soon as it has two indices
     * to order; with fewer it returns them untouched.
     */
    method ReorderAsWritten() returns (threw: bool)
      requires Valid()
      ensures threw <==> popSize >= 2
      ensures !threw ==> idxs[..] == Population.Between(0, popSize)
    {
      threw := idxs.Length >= 2;
      if !threw {
        if idxs.Length == 1 {
          assert idxs[..] == [0];
        }
      }
    }

    /**
     * search as written (index.ts:388-456). Its first loop stores Infinity as
     * a property of `bestScores[fIdx]`, which is a number; a class body is
     * strict code, so that store throws a TypeError as soon as there is an
     * objective. Otherwise `score` does nothing and the first reorder throws
     * in the unbound comparator whenever there are two candidates. With no
     * objective and at most one candidate, there is nothing to improve, so
     * the first check reports stuck and the candidates are yielded in index
     * order: nothing is ever mutated or crossed. A constructed engine never
     * takes that branch: DEFAULTS (index.ts:138) overwrites popSize with
     * 300, so the first reorder always throws.
     */
    method Search(elapsedMS: int) returns (threw: bool, stop: Option<Finished.Outcome>, yielded: seq<seq<int>>)
      requires Valid()
      ensures threw <==> bestScores.Length > 0 || popSize >= 2
      ensures threw ==> stop.None? && yielded == []
      ensures !threw ==> stop == Some(Finished.Stuck)
      ensures !threw ==> yielded == if popSize == 0 then [] else [Population.SubArray(pop[..], 0, nGenes)]
    {
      if bestScores.Length > 0 {
        return true, None, [];
      }
      threw := ReorderAsWritten();
      if threw {
        return true, None, [];
      }
      assert Check(rIdx, elapsedMS) == Finished.Stuck;
      var outcome := Finished.TsIsFinished(bestScores, bestCandIdxs, nTrack, minImprove, rIdx, nRounds, elapsedMS, timeOutMS);
      stop := Some(outcome);
      yielded := Yield();
    }
  }

  /** A change of 0, or NaN, never reaches a positive minImprove. */
  lemma NoChangeIsNoImprovement(change: Num, minImprove: Num)
    requires change == NaN || change == Finite(0.0)
    requires Gt(minImprove, Finite(0.0))
    ensures !Ge(change, minImprove)
  {
  }

  /**
   * Nothing in index.ts ever writes `bestScores` or `bestCandIdxs` after
   * construction, so they stay all zero; with a positive minImprove every
   * check then reports stuck.
   */
  lemma ZeroHistoryIsStuck(bestScores: seq<Num>, slots: seq<int>, nTrack: int, minImprove: Num, rIdx: nat, nRounds: Num,
                           elapsedMS: int, timeOutMS: Num)
    requires forall i | 0 <= i < |bestScores| :: bestScores[i] == Finite(0.0)
    requires forall o | 0 <= o < |slots| :: slots[o] == 0
    requires Gt(minImprove, Finite(0.0))
    ensures Finished.Priority(Finished.Improved(bestScores, slots, |slots|, nTrack, minImprove) == 0,
                              rIdx, nRounds, elapsedMS, timeOutMS) == Finished.Stuck
  {
    FlatChange(bestScores, nTrack);
    NoChangeIsNoImprovement(Finished.Change(bestScores, 0, nTrack), minImprove);
    forall o | 0 <= o < |slots|
      ensures !Ge(Finished.Change(bestScores, slots[o], nTrack), minImprove)
    {
      assert slots[o] == 0;
    }
    Finished.ImprovedZero(bestScores, slots, |slots|, nTrack, minImprove);
  }

  /** With an all-zero buffer, the change of a slot-0 objective is 0, or NaN when slot nTrack - 1 is outside the buffer. */
  lemma FlatChange(bestScores: seq<Num>, nTrack: int)
    requires forall i | 0 <= i < |bestScores| :: bestScores[i] == Finite(0.0)
    ensures Finished.Change(bestScores, 0, nTrack) == NaN || Finished.Change(bestScores, 0, nTrack) == Finite(0.0)
  {
    var d := Sub(At(bestScores, nTrack - 1), At(bestScores, 0));
    assert d == NaN || d == Finite(0.0) by {
      if 0 <= nTrack - 1 < |bestScores| {
        assert d == Finite(0.0);
      } else {
        assert d == NaN;
      }
    }
    assert Finished.Accumulate(bestScores, Finite(0.0), 1, 0) == Finite(0.0);
    assert Add(Finite(0.0), d) == d by {
      if d == Finite(0.0) {
        assert Add(Finite(0.0), Finite(0.0)) == Finite(0.0);
      }
    }
  }
}
