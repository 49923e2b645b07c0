/**
 * The generation loop of the JavaScript engine (index.js:257-362): the
 * `env` object search builds and then changes in place, as a class over
 * its typed arrays.
 *
 * The env is `Object.assign({...}, this)`: it copies the engine's own
 * fields, and the strategy functions then read what they need from it. Three
 * names they read are not among those fields:
 * - `minImprove` (the option is called `minImp`): isFinished compares with
 *   undefined, so it never reports stuck;
 * - `nMutations`: mutate.js runs `i < undefined` zero times and writes
 *   nothing;
 * - `pIdx1` and `pIdx2`: crossover.js reads `pop[NaN + gIdx]`, undefined,
 *   which an integer typed array stores as 0, so the child is zeroed.
 * The genes are integers: the env is modelled for the integer dtypes
 * (IntDtype); a float typed array would store NaN there.
 * The fitness function is a parameter, and the random draws and the
 * elapsed milliseconds are inputs. Each sort is the insertion sort of
 * module Sort. nElite may exceed popSize (index.js:180 compares them only
 * when both are supplied); the rank loop then runs zero times.
 */
module SearchJs {
  import opened JsNumber
  import opened Wrappers
  import Operators
  import Population
  import Finished
  import Schedules
  import Scoring
  import Sort

  /** `scores.reduce((s1, s2) => Math.max(s1, s2))` over a non-empty array. */
  function Best(s: seq<Num>): Num
    requires |s| >= 1
  {
    if |s| == 1 then s[0] else MathMax(Best(s[..|s| - 1]), s[|s| - 1])
  }

  /** With no NaN among the scores, the reduction is one of them and no score exceeds it. */
  lemma {:induction false} BestIsMaximum(s: seq<Num>)
    requires |s| >= 1 && forall i | 0 <= i < |s| :: s[i] != NaN
    ensures exists i | 0 <= i < |s| :: Best(s) == s[i]
    ensures forall i | 0 <= i < |s| :: Ge(Best(s), s[i])
  {
    if |s| > 1 {
      var init := s[..|s| - 1];
      BestIsMaximum(init);
      var j :| 0 <= j < |init| && Best(init) == init[j];
      if Best(s) == s[|s| - 1] {
        assert Best(s) == s[|s| - 1];
      } else {
        assert Best(s) == s[j];
      }
      forall i | 0 <= i < |s|
        ensures Ge(Best(s), s[i])
      {
        if i < |s| - 1 {
          assert init[i] == s[i];
          assert Ge(Best(init), s[i]);
        }
      }
    } else {
      assert Best(s) == s[0];
    }
  }

  /** One NaN score makes the reduction NaN. */
  lemma {:induction false} BestNaN(s: seq<Num>, i: int)
    requires 0 <= i < |s| && s[i] == NaN
    ensures Best(s) == NaN
  {
    if i < |s| - 1 {
      BestNaN(s[..|s| - 1], i);
    }
  }

  /**
   * An integer element type ('i' or 'u' prefix, as initPop.js tests with
   * `startsWith('u')`): its typed array stores undefined as 0, where the
   * float arrays store NaN.
   */
  predicate IntDtype(dtype: string)
  {
    |dtype| > 0 && dtype[0] in {'i', 'u'}
  }

  class Env {
    const nGenes: nat
    const popSize: nat
    const nElite: nat
    const nTrack: nat
    const nRounds: Num
    const timeOutMS: nat
    /** The `minImprove` isFinished reads from the env. */
    const minImprove: Num
    const dtype: string
    const minRandVal: int
    const maxRandVal: int
    const validateFitness: bool
    const f: seq<int> -> Num
    const pop: array<int>
    const candIdxs: array<nat>
    const scores: array<Num>
    const maxScores: array<Num>
    var rIdx: nat
    var timeTakenMS: int
    var maxScoreIdx: int
    /** The ranks handed to mutate or crossover so far, in order. */
    ghost var touched: seq<int>

    /** The buffers have their allocated sizes, candIdxs is a permutation and the two score buffers are distinct. */
    ghost predicate Valid()
      reads this, candIdxs
    {
      1 <= popSize && 1 <= nTrack && IntDtype(dtype)
      && pop.Length == popSize * nGenes && scores.Length == popSize && maxScores.Length == nTrack
      && scores != maxScores && Population.IsPermutation(candIdxs[..], popSize)
    }

    /**
     * The env of search (index.js:262-293) as written: zeroed buffers of
     * popSize * nGenes genes, popSize scores and nTrack best scores,
     * candIdxs 0 .. popSize - 1, rIdx 0, and +Infinity seeded into the last
     * history slot. The option minImp is copied under its own name, so the
     * `minImprove` isFinished reads is undefined (NaN).
     */
    constructor (nGenes: nat, popSize: nat, nElite: nat, nTrack: nat, nRounds: Num, timeOutMS: nat, minImp: Num,
                 dtype: string, minRandVal: int, maxRandVal: int, validateFitness: bool, f: seq<int> -> Num)
      requires 1 <= popSize && 1 <= nTrack && IntDtype(dtype)
      ensures Valid() && fresh(pop) && fresh(candIdxs) && fresh(scores) && fresh(maxScores)
      ensures pop[..] == seq(popSize * nGenes, _ => 0) && scores[..] == seq(popSize, _ => Finite(0.0))
      ensures candIdxs[..] == seq(popSize, i requires 0 <= i < popSize => i as nat)
      ensures maxScores[..] == seq(nTrack, i => if i == nTrack - 1 then PosInf else Finite(0.0))
      ensures rIdx == 0 && touched == [] && minImprove == NaN
      ensures this.nGenes == nGenes && this.popSize == popSize && this.nElite == nElite && this.nTrack == nTrack
      ensures this.nRounds == nRounds && this.timeOutMS == timeOutMS && this.dtype == dtype
      ensures this.minRandVal == minRandVal && this.maxRandVal == maxRandVal
      ensures this.validateFitness == validateFitness && this.f == f
    {
      this.nGenes := nGenes;
      this.popSize := popSize;
      this.nElite := nElite;
      this.nTrack := nTrack;
      this.nRounds := nRounds;
      this.timeOutMS := timeOutMS;
      this.minImprove := NaN;
      this.dtype := dtype;
      this.minRandVal := minRandVal;
      this.maxRandVal := maxRandVal;
      this.validateFitness := validateFitness;
      this.f := f;
      pop := new int[popSize * nGenes](_ => 0);
      candIdxs := new nat[popSize](i requires 0 <= i < popSize => i);
      scores := new Num[popSize](_ => Finite(0.0));
      maxScores := new Num[nTrack](_ => Finite(0.0));
      rIdx := 0;
      timeTakenMS := 0;
      maxScoreIdx := 0;
      touched := [];
      new;
      assert Population.IsPermutation(candIdxs[..], popSize);
      maxScores[nTrack - 1] := PosInf;
    }

    /** The env as intended: the same, with minImp passed to isFinished as `minImprove`. */
    constructor WithMinImprove(nGenes: nat, popSize: nat, nElite: nat, nTrack: nat, nRounds: Num, timeOutMS: nat, minImp: Num,
                               dtype: string, minRandVal: int, maxRandVal: int, validateFitness: bool, f: seq<int> -> Num)
      requires 1 <= popSize && 1 <= nTrack && IntDtype(dtype)
      ensures Valid() && fresh(pop) && fresh(candIdxs) && fresh(scores) && fresh(maxScores)
      ensures pop[..] == seq(popSize * nGenes, _ => 0) && scores[..] == seq(popSize, _ => Finite(0.0))
      ensures candIdxs[..] == seq(popSize, i requires 0 <= i < popSize => i as nat)
      ensures maxScores[..] == seq(nTrack, i => if i == nTrack - 1 then PosInf else Finite(0.0))
      ensures rIdx == 0 && touched == [] && minImprove == minImp
      ensures this.nGenes == nGenes && this.popSize == popSize && this.nElite == nElite && this.nTrack == nTrack
      ensures this.nRounds == nRounds && this.timeOutMS == timeOutMS && this.dtype == dtype
      ensures this.minRandVal == minRandVal && this.maxRandVal == maxRandVal
      ensures this.validateFitness == validateFitness && this.f == f
    {
      this.nGenes := nGenes;
      this.popSize := popSize;
      this.nElite := nElite;
      this.nTrack := nTrack;
      this.nRounds := nRounds;
      this.timeOutMS := timeOutMS;
      this.minImprove := minImp;
      this.dtype := dtype;
      this.minRandVal := minRandVal;
      this.maxRandVal := maxRandVal;
      this.validateFitness := validateFitness;
      this.f := f;
      pop := new int[popSize * nGenes](_ => 0);
      candIdxs := new nat[popSize](i requires 0 <= i < popSize => i);
      scores := new Num[popSize](_ => Finite(0.0));
      maxScores := new Num[nTrack](_ => Finite(0.0));
      rIdx := 0;
      timeTakenMS := 0;
      maxScoreIdx := 0;
      touched := [];
      new;
      assert Population.IsPermutation(candIdxs[..], popSize);
      maxScores[nTrack - 1] := PosInf;
    }

    /** What `this.score(env)` leaves for candidate c when the genes are p. */
    ghost function ScoreFor(p: seq<int>, c: nat): Num
    {
      Scoring.ScoreOf(Scoring.Wrapper(validateFitness), p, f, c, nGenes)
    }

    /** `this.score(env)`: wrapper(validateFitness) scores every candidate. */
    method ScoreAll()
      requires Valid()
      modifies scores
      ensures forall c | 0 <= c < popSize :: scores[c] == ScoreFor(pop[..], c)
    {
      if validateFitness {
        Scoring.ScoreChecked(pop, scores, popSize, f, nGenes);
      } else {
        Scoring.Score(pop, scores, popSize, f, nGenes);
      }
    }

    /** The number of ranks the rank loop visits: popSize - nElite, or none when nElite is not below popSize. */
    function NonElite(): nat
    {
      if nElite < popSize then popSize - nElite else 0
    }

    /** No candidate's score is NaN. */
    ghost predicate NoNaN()
      reads this, scores
    {
      forall c | 0 <= c < popSize :: At(scores[..], c) != NaN
    }

    /**
     * `env.candIdxs.sort((cIdx1, cIdx2) => env.scores[cIdx1] > env.scores[cIdx2] ? -1 : 1)`:
     * candIdxs is rearranged, and with no NaN score it runs best first.
     */
    method Reorder()
      requires Valid()
      modifies candIdxs
      ensures Valid() && multiset(candIdxs[..]) == multiset(old(candIdxs[..]))
      ensures NoNaN() ==> Sort.RankedBy(candIdxs[..], scores[..])
    {
      Sort.InsertionSort(candIdxs, popSize, Sort.ByScore(scores[..]));
      if NoNaN() {
        Sort.ByScoreIsStrictWeak(scores[..], popSize);
        Sort.SortedByScoreIsRanked(candIdxs[..], scores[..], popSize);
      }
    }

    /** With validateFitness on, the wrapper keeps NaN out, so no score the scorer leaves is NaN. */
    lemma CheckedScoresNotNaN(p: seq<int>, c: nat)
      requires validateFitness
      ensures ScoreFor(p, c) != NaN
    {
      Scoring.CheckedScoresBounded(f(Population.SubArray(p, c * nGenes, c * nGenes + nGenes)));
    }

    /**
     * initPop, the first scoring and the first sort (index.js:295-302):
     * every gene gets its initPop value, every candidate its score, and
     * candIdxs is sorted best first when no score is NaN, which is always
     * so with validateFitness on.
     */
    method Start(draws: seq<real>)
      requires Valid() && Operators.DrawsFor(Operators.IsUnsigned(dtype), popSize * nGenes) <= |draws|
      modifies pop, scores, candIdxs
      ensures Valid()
      ensures forall k | 0 <= k < pop.Length ::
        pop[k] == Operators.InitValue(draws, k, Operators.IsUnsigned(dtype), maxRandVal, minRandVal)
      ensures forall c | 0 <= c < popSize :: scores[c] == ScoreFor(pop[..], c)
      ensures (NoNaN() || validateFitness) ==> Sort.RankedBy(candIdxs[..], scores[..])
    {
      Operators.InitPop(draws, pop, dtype, popSize, nGenes, maxRandVal, minRandVal);
      ScoreAll();
      Reorder();
      if validateFitness {
        forall c | 0 <= c < popSize
          ensures At(scores[..], c) != NaN
        {
          CheckedScoresNotNaN(pop[..], c);
        }
      }
    }

    /** The outcome isFinished reports at round index r after elapsedMS milliseconds, for the current history. */
    ghost function Check(r: nat, elapsedMS: int): Finished.Outcome
      requires nTrack >= 1
      reads maxScores
    {
      Finished.Decide(Finished.DisDiff(maxScores[..], r % nTrack, nTrack), minImprove, r, nRounds, elapsedMS,
                      Finite(timeOutMS as real))
    }

    /**
     * The head of the loop (index.js:305-311): the history slot of this
     * round is rIdx mod nTrack, the elapsed time is recorded, and
     * isFinished decides.
     */
    method CheckRound(elapsedMS: nat) returns (outcome: Finished.Outcome)
      requires Valid()
      modifies this
      ensures Valid() && rIdx == old(rIdx) && touched == old(touched)
      ensures maxScoreIdx == rIdx % nTrack && timeTakenMS == elapsedMS
      ensures outcome == Check(rIdx, elapsedMS)
    {
      maxScoreIdx := rIdx % nTrack;
      timeTakenMS := elapsedMS;
      outcome := Finished.IsFinished(maxScores, maxScoreIdx, rIdx, timeTakenMS, Finite(timeOutMS as real), nTrack,
                                     minImprove, nRounds);
    }

    /** doMutate's verdict for the candidate at rank ptr, given its draw r. */
    predicate Mutates(r: real, ptr: int)
      reads this
      requires nElite <= ptr < popSize && 0 <= timeTakenMS < timeOutMS
    {
      Schedules.DoMutate(r, nElite, popSize, ptr, timeTakenMS, timeOutMS)
    }

    /**
     * crossover.js called with the env, which has no pIdx1 or pIdx2: both
     * parent offsets are NaN, every read is undefined, and the integer
     * typed array stores it as 0. The child's slice is zeroed.
     */
    method CrossoverUndefinedParents(offset: int)
      requires IntDtype(dtype)
      modifies pop
      ensures forall k | 0 <= k < pop.Length :: pop[k] == if offset <= k < offset + nGenes then 0 else old(pop[k])
    {
      var gIdx := 0;
      while gIdx < nGenes
        invariant 0 <= gIdx <= nGenes
        invariant forall k | 0 <= k < pop.Length :: pop[k] == if offset <= k < offset + gIdx then 0 else old(pop[k])
      {
        if 0 <= offset + gIdx < pop.Length {
          pop[offset + gIdx] := 0;
        }
        gIdx := gIdx + 1;
      }
    }

    /**
     * The body of the rank loop (index.js:343-353) for rank ptr: doMutate
     * chooses between mutate.js, which makes no write because the env has
     * no nMutations, and crossover.js, which zeroes the candidate.
     */
    method Operate(ptr: int, r: real)
      requires Valid() && nElite <= ptr < popSize && 0 <= timeTakenMS < timeOutMS
      modifies pop
      ensures forall k | 0 <= k < pop.Length ::
        pop[k] == if !Mutates(r, ptr) && Population.InSlice(k, candIdxs[ptr], nGenes) then 0 else old(pop[k])
    {
      var offset := candIdxs[ptr] * nGenes;
      if Schedules.DoMutate(r, nElite, popSize, ptr, timeTakenMS, timeOutMS) {
        var _ := Operators.Mutate([], 0, offset, pop, nGenes, minRandVal, maxRandVal);
      } else {
        CrossoverUndefinedParents(offset);
      }
    }

    /** Where the rank loop has reached `done`: ranks nElite .. done - 1 were operated on, with these draws. */
    ghost predicate Operated(old0: seq<int>, choices: seq<real>, done: int)
      reads this, pop, candIdxs
      requires Valid() && |choices| == NonElite() && 0 <= timeTakenMS < timeOutMS
      requires |old0| == pop.Length
    {
      forall ptr, k | 0 <= ptr < popSize && 0 <= k < pop.Length && Population.InSlice(k, candIdxs[ptr], nGenes) ::
        pop[k] == if nElite <= ptr < done && !Mutates(choices[ptr - nElite], ptr) then 0 else old0[k]
    }

    /** One more rank operated on: its slice changed as Operate says, and every other rank's slice is as before. */
    lemma OperatedStep(old0: seq<int>, before: seq<int>, choices: seq<real>, ptr: int)
      requires Valid() && |choices| == NonElite() && 0 <= timeTakenMS < timeOutMS
      requires |old0| == pop.Length && |before| == pop.Length && nElite <= ptr < popSize
      requires forall p, k | 0 <= p < popSize && 0 <= k < pop.Length && Population.InSlice(k, candIdxs[p], nGenes) ::
        before[k] == if nElite <= p < ptr && !Mutates(choices[p - nElite], p) then 0 else old0[k]
      requires forall k | 0 <= k < pop.Length ::
        pop[k] == if !Mutates(choices[ptr - nElite], ptr) && Population.InSlice(k, candIdxs[ptr], nGenes) then 0 else before[k]
      ensures Operated(old0, choices, ptr + 1)
    {
      forall p, k | 0 <= p < popSize && 0 <= k < pop.Length && Population.InSlice(k, candIdxs[p], nGenes)
        ensures pop[k] == if nElite <= p < ptr + 1 && !Mutates(choices[p - nElite], p) then 0 else old0[k]
      {
        if p != ptr {
          Population.RanksOwnDisjointSlices(candIdxs[..], popSize, p, ptr, k, nGenes);
        }
      }
    }

    /**
     * The rank loop (index.js:342-354): ranks nElite .. popSize - 1 in
     * order; the candidate at each is zeroed unless doMutate chose mutate,
     * and the candidates at the elite ranks keep every gene. With nElite at
     * least popSize the loop runs zero times and no gene changes.
     */
    method RankLoop(choices: seq<real>)
      requires Valid() && |choices| == NonElite() && 0 <= timeTakenMS < timeOutMS
      modifies this, pop
      ensures Valid() && rIdx == old(rIdx) && timeTakenMS == old(timeTakenMS) && maxScoreIdx == old(maxScoreIdx)
      ensures touched == old(touched) + Population.Between(nElite, popSize)
      ensures Operated(old(pop[..]), choices, popSize)
      ensures popSize <= nElite ==> pop[..] == old(pop[..])
    {
      var ptr := nElite;
      while ptr < popSize
        invariant nElite <= ptr && (ptr <= popSize || ptr == nElite) && Valid()
        invariant rIdx == old(rIdx) && timeTakenMS == old(timeTakenMS) && maxScoreIdx == old(maxScoreIdx)
        invariant touched == old(touched) + Population.Between(nElite, ptr)
        invariant Operated(old(pop[..]), choices, ptr)
        invariant ptr == nElite ==> pop[..] == old(pop[..])
      {
        ghost var before := pop[..];
        Operate(ptr, choices[ptr - nElite]);
        OperatedStep(old(pop[..]), before, choices, ptr);
        assert Population.Between(nElite, ptr + 1) == Population.Between(nElite, ptr) + [ptr];
        touched := touched + [ptr];
        ptr := ptr + 1;
      }
      assert Population.Between(nElite, ptr) == Population.Between(nElite, popSize);
    }

    /**
     * One pass of the loop after isFinished said no (index.js:311-354):
     * rIdx grows by one; every candidate is scored on the genes it had; the
     * re-sort rearranges candIdxs best first when no score is NaN (always so
     * with validateFitness on); the best score goes to this round's history
     * slot and nowhere else; then the rank loop runs over the doMutate draws
     * `choices`, and the candidates at the elite ranks, the fittest, keep
     * every gene.
     */
    method Round(choices: seq<real>)
      requires Valid() && |choices| == NonElite() && maxScoreIdx == rIdx % nTrack && 0 <= timeTakenMS < timeOutMS
      modifies this, pop, candIdxs, scores, maxScores
      ensures Valid() && rIdx == old(rIdx) + 1 && timeTakenMS == old(timeTakenMS)
      ensures multiset(candIdxs[..]) == multiset(old(candIdxs[..]))
      ensures forall c | 0 <= c < popSize :: scores[c] == ScoreFor(old(pop[..]), c)
      ensures (NoNaN() || validateFitness) ==> Sort.RankedBy(candIdxs[..], scores[..])
      ensures maxScores[..] == old(maxScores[..])[old(rIdx) % nTrack := Best(scores[..])]
      ensures touched == old(touched) + Population.Between(nElite, popSize)
      ensures Operated(old(pop[..]), choices, popSize)
      ensures popSize <= nElite ==> pop[..] == old(pop[..])
    {
      rIdx := rIdx + 1;
      ScoreAll();
      Reorder();
      if validateFitness {
        forall c | 0 <= c < popSize
          ensures At(scores[..], c) != NaN
        {
          CheckedScoresNotNaN(old(pop[..]), c);
        }
      }
      maxScores[maxScoreIdx] := Best(scores[..]);
      RankLoop(choices);
    }

    /** The slices the generator yields once the loop ends (index.js:358-361). */
    method Yield() returns (slices: seq<seq<int>>)
      requires Valid()
      ensures slices == Population.YieldOrder(pop[..], candIdxs[..], nGenes)
    {
      slices := [];
      var ptr := 0;
      while ptr < popSize
        invariant 0 <= ptr <= popSize
        invariant slices == Population.YieldOrder(pop[..], candIdxs[..ptr], nGenes)
      {
        var offset := nGenes * candIdxs[ptr];
        assert candIdxs[..ptr + 1] == candIdxs[..ptr] + [candIdxs[ptr]];
        slices := slices + [Population.SubArray(pop[..], offset, offset + nGenes)];
        ptr := ptr + 1;
      }
      assert candIdxs[..popSize] == candIdxs[..];
    }

    /**
     * search (index.js:257-362): initPop, the first scoring and sort, then
     * rounds until isFinished reports a reason. Check i sees elapsedMS[i];
     * when the inputs run out first, stop is None. With minImprove
     * undefined, as written, the reason is never stuck.
     */
    method Search(draws: seq<real>, rounds: seq<seq<real>>, elapsedMS: seq<nat>)
      returns (stop: Option<Finished.Outcome>, ran: nat, yielded: seq<seq<int>>)
      requires Valid() && Operators.DrawsFor(Operators.IsUnsigned(dtype), popSize * nGenes) <= |draws|
      requires |elapsedMS| == |rounds| + 1 && forall r | 0 <= r < |rounds| :: |rounds[r]| == NonElite()
      modifies this, pop, candIdxs, scores, maxScores
      ensures Valid() && ran <= |rounds| && rIdx == old(rIdx) + ran
      ensures stop.Some? ==> stop.value == Check(rIdx, elapsedMS[ran]) && stop.value != Finished.NotFinished
      ensures stop.Some? ==> |yielded| == popSize && yielded == Population.YieldOrder(pop[..], candIdxs[..], nGenes)
      ensures stop.None? ==> ran == |rounds| && yielded == [] && Check(rIdx, elapsedMS[ran]) == Finished.NotFinished
      ensures forall i | |old(touched)| <= i < |touched| :: nElite <= touched[i] < popSize
      ensures validateFitness ==> Sort.RankedBy(candIdxs[..], scores[..])
      ensures minImprove == NaN ==> stop != Some(Finished.Stuck)
    {
      Start(draws);
      var outcome := CheckRound(elapsedMS[0]);
      if outcome != Finished.NotFinished {
        stop := Some(outcome);
        yielded := Yield();
        return stop, 0, yielded;
      }
      stop, ran, yielded := Rounds(rounds, elapsedMS);
    }

    /** The rounds after a first check that did not stop the search. */
    method Rounds(rounds: seq<seq<real>>, elapsedMS: seq<nat>)
      returns (stop: Option<Finished.Outcome>, ran: nat, yielded: seq<seq<int>>)
      requires Valid() && |elapsedMS| == |rounds| + 1 && forall r | 0 <= r < |rounds| :: |rounds[r]| == NonElite()
      requires maxScoreIdx == rIdx % nTrack && timeTakenMS == elapsedMS[0]
      requires Check(rIdx, elapsedMS[0]) == Finished.NotFinished
      requires validateFitness ==> Sort.RankedBy(candIdxs[..], scores[..])
      modifies this, pop, candIdxs, scores, maxScores
      ensures Valid() && ran <= |rounds| && rIdx == old(rIdx) + ran
      ensures stop.Some? ==> stop.value == Check(rIdx, elapsedMS[ran]) && stop.value != Finished.NotFinished
      ensures stop.Some? ==> |yielded| == popSize && yielded == Population.YieldOrder(pop[..], candIdxs[..], nGenes)
      ensures stop.None? ==> ran == |rounds| && yielded == [] && Check(rIdx, elapsedMS[ran]) == Finished.NotFinished
      ensures forall i | |old(touched)| <= i < |touched| :: nElite <= touched[i] < popSize
      ensures validateFitness ==> Sort.RankedBy(candIdxs[..], scores[..])
    {
      ran := 0;
      var outcome := Finished.NotFinished;
      while outcome == Finished.NotFinished && ran < |rounds|
        invariant Valid() && ran <= |rounds| && rIdx == old(rIdx) + ran
        invariant maxScoreIdx == rIdx % nTrack && timeTakenMS == elapsedMS[ran]
        invariant outcome == Check(rIdx, elapsedMS[ran])
        invariant forall i | |old(touched)| <= i < |touched| :: nElite <= touched[i] < popSize
        invariant validateFitness ==> Sort.RankedBy(candIdxs[..], scores[..])
        decreases |rounds| - ran
      {
        assert timeTakenMS < timeOutMS by {
          assert !Ge(Finite(timeTakenMS as real), Finite(timeOutMS as real));
        }
        Round(rounds[ran]);
        ran := ran + 1;
        outcome := CheckRound(elapsedMS[ran]);
      }
      if outcome == Finished.NotFinished {
        return None, ran, [];
      }
      stop := Some(outcome);
      yielded := Yield();
    }

    /** With minImprove undefined, as written, isFinished never reports stuck, whatever the history. */
    lemma UndefinedNeverStuck(r: nat, elapsedMS: int)
      requires Valid() && minImprove == NaN
      ensures Check(r, elapsedMS) != Finished.Stuck
    {
      Finished.UndefinedMinImproveNeverStuck(Finished.DisDiff(maxScores[..], r % nTrack, nTrack), r, nRounds, elapsedMS,
                                             Finite(timeOutMS as real));
    }

    /** With minImp passed through and positive, a history of one repeated finite score stops the search as stuck. */
    lemma FlatHistoryStops(c: real, r: nat, elapsedMS: int)
      requires Valid() && Lt(Finite(0.0), minImprove)
      requires forall j | 0 <= j < maxScores.Length :: maxScores[j] == Finite(c)
      ensures Check(r, elapsedMS) == Finished.Stuck
    {
      var m := maxScores[..];
      assert forall j | 0 <= j < nTrack :: At(m, j) == Finite(c);
      Finished.PlateauIsStuck(m, c, r % nTrack, nTrack, minImprove, r, nRounds, elapsedMS, Finite(timeOutMS as real));
    }
  }
}
