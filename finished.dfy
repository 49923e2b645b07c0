/**
 * Plateau and termination detection: isFinished.js, used by the index.js
 * search loop, and the per-objective `isFinished` of index.ts
 * (index.ts:290-319). Both sum consecutive differences of a buffer of best
 * scores and then pick a stop reason by priority: stuck, rounds, timeout.
 */
module Finished {
  import opened JsNumber

  /** What isFinished reports: 'stuck', 'rounds', 'timeout' or false. */
  datatype Outcome = Stuck | Rounds | Timeout | NotFinished

  /** `m[i] - m[i - 1]` */
  function Step(m: seq<Num>, i: int): Num
  {
    Sub(At(m, i), At(m, i - 1))
  }

  /** The accumulator after `for (let i = lo; i < hi; i++) acc += m[i] - m[i - 1]`, started at acc0. */
  function Accumulate(m: seq<Num>, acc0: Num, lo: int, hi: int): Num
    decreases hi - lo
  {
    if hi <= lo then acc0 else Add(Accumulate(m, acc0, lo, hi - 1), Step(m, hi - 1))
  }

  /** `disDiff` of isFinished.js (lines 6-14) for the buffer m, current slot k and length nTrack. */
  function DisDiff(m: seq<Num>, k: int, nTrack: int): Num
  {
    Add(Accumulate(m, Accumulate(m, Finite(0.0), 1, k), k + 2, nTrack), Sub(At(m, nTrack - 1), At(m, 0)))
  }

  /**
   * The stop reason once it is known whether the search is stuck
   * (isFinished.js:16-24, index.ts:307-318): stuck takes priority over
   * rounds, rounds over timeout.
   */
  function Priority(stuck: bool, rIdx: nat, nRounds: Num, timeTakenMS: int, timeOutMS: Num): (r: Outcome)
    ensures r == Stuck <==> stuck
    ensures r == Rounds <==> !stuck && Ge(Finite(rIdx as real), nRounds)
    ensures r == Timeout <==> !stuck && !Ge(Finite(rIdx as real), nRounds) && Ge(Finite(timeTakenMS as real), timeOutMS)
    ensures r == NotFinished <==>
      !stuck && !Ge(Finite(rIdx as real), nRounds) && !Ge(Finite(timeTakenMS as real), timeOutMS)
  {
    if stuck then Stuck
    else if Ge(Finite(rIdx as real), nRounds) then Rounds
    else if Ge(Finite(timeTakenMS as real), timeOutMS) then Timeout
    else NotFinished
  }

  /** The outcome of isFinished.js for an improvement disDiff: stuck when it falls short of minImprove. */
  function Decide(disDiff: Num, minImprove: Num, rIdx: nat, nRounds: Num, timeTakenMS: int, timeOutMS: Num): Outcome
  {
    Priority(Lt(disDiff, minImprove), rIdx, nRounds, timeTakenMS, timeOutMS)
  }

  /** One difference loop of isFinished: `for (let i = lo; i < hi; i++) acc += m[i] - m[i - 1]`. */
  method SumDifferences(m: seq<Num>, acc0: Num, lo: int, hi: int) returns (acc: Num)
    ensures acc == Accumulate(m, acc0, lo, hi)
  {
    acc := acc0;
    var i := lo;
    while i < hi
      invariant lo <= i && (i <= hi || i == lo)
      invariant acc == Accumulate(m, acc0, lo, i)
    {
      acc := Add(acc, Step(m, i));
      i := i + 1;
    }
  }

  /** isFinished.js: the two loops accumulate disDiff in a local; nothing else is written. */
  method IsFinished(maxScores: array<Num>, maxScoreIdx: int, rIdx: nat, timeTakenMS: int, timeOutMS: Num,
                    nTrack: int, minImprove: Num, nRounds: Num) returns (r: Outcome)
    ensures r == Decide(DisDiff(maxScores[..], maxScoreIdx, nTrack), minImprove, rIdx, nRounds, timeTakenMS, timeOutMS)
  {
    var m := maxScores[..];
    var disDiff := SumDifferences(m, Finite(0.0), 1, maxScoreIdx);
    disDiff := SumDifferences(m, disDiff, maxScoreIdx + 2, nTrack);
    disDiff := Add(disDiff, Sub(At(m, nTrack - 1), At(m, 0)));
    if Lt(disDiff, minImprove) {
      r := Stuck;
    } else if Ge(Finite(rIdx as real), nRounds) {
      r := Rounds;
    } else if Ge(Finite(timeTakenMS as real), timeOutMS) {
      r := Timeout;
    } else {
      r := NotFinished;
    }
  }

  predicate AllFinite(m: seq<Num>)
  {
    forall j | 0 <= j < |m| :: m[j].Finite?
  }

  /** Over finite scores the loop telescopes: the sum of m[i] - m[i-1] for lo <= i < hi is m[hi-1] - m[lo-1]. */
  lemma {:induction false} AccumulateTelescopes(m: seq<Num>, a: real, lo: int, hi: int)
    requires AllFinite(m) && 1 <= lo <= hi <= |m|
    ensures Accumulate(m, Finite(a), lo, hi) == Finite(a + (m[hi - 1].v - m[lo - 1].v))
    decreases hi - lo
  {
    if hi > lo {
      AccumulateTelescopes(m, a, lo, hi - 1);
    }
  }

  /**
   * For 1 <= k <= nTrack - 2 over finite scores, disDiff is
   * (m[k-1] - m[0]) + (m[nTrack-1] - m[k+1]) + (m[nTrack-1] - m[0]).
   */
  lemma DisDiffTelescopes(m: seq<Num>, k: int, nTrack: int)
    requires AllFinite(m) && |m| == nTrack && 1 <= k <= nTrack - 2
    ensures DisDiff(m, k, nTrack) ==
      Finite((m[k - 1].v - m[0].v) + (m[nTrack - 1].v - m[k + 1].v) + (m[nTrack - 1].v - m[0].v))
  {
    AccumulateTelescopes(m, 0.0, 1, k);
    AccumulateTelescopes(m, 0.0 + (m[k - 1].v - m[0].v), k + 2, nTrack);
  }

  /** The accumulation reads only m[lo - 1 .. hi). */
  lemma {:induction false} AccumulateFrame(m1: seq<Num>, m2: seq<Num>, acc0: Num, lo: int, hi: int)
    requires forall j | lo - 1 <= j < hi :: At(m1, j) == At(m2, j)
    ensures Accumulate(m1, acc0, lo, hi) == Accumulate(m2, acc0, lo, hi)
    decreases hi - lo
  {
    if hi > lo {
      AccumulateFrame(m1, m2, acc0, lo, hi - 1);
      assert Step(m1, hi - 1) == Step(m2, hi - 1);
    }
  }

  /**
   * The differences m[k] - m[k-1] and m[k+1] - m[k] around the current slot
   * are left out: for a slot strictly between the first and the last,
   * disDiff does not depend on m[k] at all.
   */
  lemma DisDiffSkipsSlot(m: seq<Num>, k: int, nTrack: int, x: Num)
    requires 0 < k < |m| && k != nTrack - 1
    ensures DisDiff(m[k := x], k, nTrack) == DisDiff(m, k, nTrack)
  {
    var m2 := m[k := x];
    AccumulateFrame(m2, m, Finite(0.0), 1, k);
    AccumulateFrame(m2, m, Accumulate(m, Finite(0.0), 1, k), k + 2, nTrack);
    assert At(m2, nTrack - 1) == At(m, nTrack - 1) && At(m2, 0) == At(m, 0);
  }

  /** Differences of equal finite scores add nothing. */
  lemma {:induction false} AccumulateFlat(m: seq<Num>, c: real, a: real, lo: int, hi: int)
    requires forall j | lo - 1 <= j < hi :: At(m, j) == Finite(c)
    ensures Accumulate(m, Finite(a), lo, hi) == Finite(a)
    decreases hi - lo
  {
    if hi > lo {
      AccumulateFlat(m, c, a, lo, hi - 1);
      assert Step(m, hi - 1) == Finite(0.0);
    }
  }

  /** A buffer holding one finite value everywhere has disDiff 0. */
  lemma PlateauHasNoChange(m: seq<Num>, c: real, k: int, nTrack: int)
    requires forall j | 0 <= j < nTrack :: At(m, j) == Finite(c)
    requires 0 <= k < nTrack
    ensures DisDiff(m, k, nTrack) == Finite(0.0)
  {
    assert Accumulate(m, Finite(0.0), 1, k) == Finite(0.0) by {
      AccumulateFlat(m, c, 0.0, 1, k);
    }
    assert Accumulate(m, Finite(0.0), k + 2, nTrack) == Finite(0.0) by {
      AccumulateFlat(m, c, 0.0, k + 2, nTrack);
    }
  }

  /** On such a plateau every positive minImprove reports stuck, whatever the round and the time. */
  lemma PlateauIsStuck(m: seq<Num>, c: real, k: int, nTrack: int, minImprove: Num, rIdx: nat, nRounds: Num,
                       timeTakenMS: int, timeOutMS: Num)
    requires forall j | 0 <= j < nTrack :: At(m, j) == Finite(c)
    requires 0 <= k < nTrack && Lt(Finite(0.0), minImprove)
    ensures Decide(DisDiff(m, k, nTrack), minImprove, rIdx, nRounds, timeTakenMS, timeOutMS) == Stuck
  {
    PlateauHasNoChange(m, c, k, nTrack);
  }

  /** Partial sums that start finite or +Infinity stay so while every term does. */
  predicate NotBelow(x: Num)
  {
    x.Finite? || x == PosInf
  }

  lemma {:induction false} AccumulateNotBelow(m: seq<Num>, acc0: Num, lo: int, hi: int)
    requires NotBelow(acc0)
    requires forall j | lo - 1 <= j < hi :: NotBelow(At(m, j))
    requires forall j | lo - 1 <= j < hi - 1 :: At(m, j).Finite?
    ensures NotBelow(Accumulate(m, acc0, lo, hi))
    decreases hi - lo
  {
    if hi > lo {
      AccumulateNotBelow(m, acc0, lo, hi - 1);
      assert NotBelow(At(m, hi - 1)) && At(m, hi - 2).Finite?;
    }
  }

  /**
   * With +Infinity in the last slot (the seed index.js writes before the
   * first round) and finite scores elsewhere, disDiff is +Infinity (or NaN
   * for a buffer of one slot), so isFinished never reports stuck.
   */
  lemma InfinitySeedNeverStuck(m: seq<Num>, k: int, nTrack: int, minImprove: Num, rIdx: nat, nRounds: Num,
                               timeTakenMS: int, timeOutMS: Num)
    requires |m| == nTrack >= 1 && 0 <= k < nTrack && m[nTrack - 1] == PosInf
    requires forall j | 0 <= j < nTrack - 1 :: m[j].Finite?
    ensures DisDiff(m, k, nTrack) == PosInf || DisDiff(m, k, nTrack) == NaN
    ensures Decide(DisDiff(m, k, nTrack), minImprove, rIdx, nRounds, timeTakenMS, timeOutMS) != Stuck
  {
    AccumulateNotBelow(m, Finite(0.0), 1, k);
    AccumulateNotBelow(m, Accumulate(m, Finite(0.0), 1, k), k + 2, nTrack);
  }

  /**
   * The index.js search builds the env it passes from its own fields, which
   * hold the option `minImp`; the `minImprove` isFinished.js reads is then
   * undefined and every comparison with it is false: never stuck.
   */
  lemma UndefinedMinImproveNeverStuck(disDiff: Num, rIdx: nat, nRounds: Num, timeTakenMS: int, timeOutMS: Num)
    ensures Decide(disDiff, NaN, rIdx, nRounds, timeTakenMS, timeOutMS) != Stuck
  {
  }

  // ---------------------------------------------------------------------------
  // index.ts:290-319, one change per objective

  /**
   * The change of objective o: the differences of `bestScores` up to that
   * objective's best-candidate slot, plus last minus first. The buffer read
   * is the same `bestScores` for every objective.
   */
  function Change(bestScores: seq<Num>, slot: int, nTrack: int): Num
  {
    Add(Accumulate(bestScores, Finite(0.0), 1, slot), Sub(At(bestScores, nTrack - 1), At(bestScores, 0)))
  }

  /** The number of objectives among the first n whose change reaches minImprove. */
  function Improved(bestScores: seq<Num>, slots: seq<int>, n: nat, nTrack: int, minImprove: Num): (c: nat)
    requires n <= |slots|
    ensures c <= n
  {
    if n == 0 then 0
    else Improved(bestScores, slots, n - 1, nTrack, minImprove)
         + (if Ge(Change(bestScores, slots[n - 1], nTrack), minImprove) then 1 else 0)
  }

  /** No objective counts as improved exactly when no objective's change reaches minImprove. */
  lemma {:induction false} ImprovedZero(bestScores: seq<Num>, slots: seq<int>, n: nat, nTrack: int, minImprove: Num)
    requires n <= |slots|
    ensures Improved(bestScores, slots, n, nTrack, minImprove) == 0 <==>
      forall o | 0 <= o < n :: !Ge(Change(bestScores, slots[o], nTrack), minImprove)
  {
    if n > 0 {
      ImprovedZero(bestScores, slots, n - 1, nTrack, minImprove);
    }
  }

  /**
   * isFinished of index.ts: the TypeScript engine's `change` buffer and
   * counter are locals, so only the result is observable; the reason it
   * emits is returned.
   */
  method TsIsFinished(bestScores: array<Num>, bestCandIdxs: array<int>, nTrack: int, minImprove: Num,
                      rIdx: nat, nRounds: Num, timeTakenMS: int, timeOutMS: Num) returns (r: Outcome)
    ensures r == Priority(Improved(bestScores[..], bestCandIdxs[..], bestCandIdxs.Length, nTrack, minImprove) == 0,
                          rIdx, nRounds, timeTakenMS, timeOutMS)
  {
    var m := bestScores[..];
    var slots := bestCandIdxs[..];
    var improvedObjectives := 0;
    var objIdx := 0;
    while objIdx < |slots|
      invariant 0 <= objIdx <= |slots|
      invariant improvedObjectives == Improved(m, slots, objIdx, nTrack, minImprove)
    {
      var change := SumDifferences(m, Finite(0.0), 1, slots[objIdx]);
      change := Add(change, Sub(At(m, nTrack - 1), At(m, 0)));
      if Ge(change, minImprove) {
        improvedObjectives := improvedObjectives + 1;
      }
      objIdx := objIdx + 1;
    }
    if improvedObjectives == 0 {
      r := Stuck;
    } else if Ge(Finite(rIdx as real), nRounds) {
      r := Rounds;
    } else if Ge(Finite(timeTakenMS as real), timeOutMS) {
      r := Timeout;
    } else {
      r := NotFinished;
    }
  }

  /**
   * index.ts allocates `bestScores` with one slot per objective
   * (index.ts:225) but reads slot nTrack - 1: when nTrack exceeds that
   * length every change is NaN and the engine reports stuck.
   */
  lemma TsShortBufferStuck(bestScores: seq<Num>, slots: seq<int>, nTrack: int, minImprove: Num,
                           rIdx: nat, nRounds: Num, timeTakenMS: int, timeOutMS: Num)
    requires nTrack > |bestScores|
    ensures Improved(bestScores, slots, |slots|, nTrack, minImprove) == 0
    ensures Priority(Improved(bestScores, slots, |slots|, nTrack, minImprove) == 0,
                     rIdx, nRounds, timeTakenMS, timeOutMS) == Stuck
  {
    forall o | 0 <= o < |slots|
      ensures !Ge(Change(bestScores, slots[o], nTrack), minImprove)
    {
      assert At(bestScores, nTrack - 1) == NaN;
    }
    ImprovedZero(bestScores, slots, |slots|, nTrack, minImprove);
  }
}
