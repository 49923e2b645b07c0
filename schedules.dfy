/**
 * The one-expression schedule modules: doMutate.js, pMutate.js,
 * nMutations.js, tournamentSize.js and pElite.js. Each is a function of the
 * candidate's rank position `ptr`, the elapsed time and (for doMutate and
 * nMutations) one random draw `r` in [0, 1). Times are whole milliseconds.
 * The source divides by `timeOutMS` and by `popSize - nElite`; the model
 * requires both to be non-zero (JavaScript would produce Infinity or NaN).
 */
module Schedules {

  // ---------------------------------------------------------------------------
  // Small facts about real arithmetic used below

  lemma FractionInUnit(x: real, y: real)
    ensures 0.0 <= x <= y && y > 0.0 ==> 0.0 <= x / y <= 1.0
    ensures 0.0 <= x < y ==> x / y < 1.0
    ensures y > 0.0 && x == y ==> x / y == 1.0
    ensures y > 0.0 && x == 0.0 ==> x / y == 0.0
  {
    if y > 0.0 {
      var q := x / y;
      assert q * y == x;
      if x == y {
        assert (q - 1.0) * y == 0.0;
      }
    }
  }

  /**
   * Real multiplication of two computed factors. The schedules below multiply
   * through this function so that the monotonicity lemmas about it apply by
   * name to the factors they are given.
   */
  function Times(a: real, b: real): real
  {
    a * b
  }

  lemma ProductInUnit(a: real, b: real)
    ensures 0.0 <= a <= 1.0 && 0.0 <= b <= 1.0 ==> 0.0 <= Times(a, b) <= a && Times(a, b) <= b
  {
    if 0.0 <= a <= 1.0 && 0.0 <= b <= 1.0 {
      TimesBelowLeft(a, b);
      TimesBelowLeft(b, a);
      assert Times(a, b) == Times(b, a) by {
        assert Times(a, b) == a * b && Times(b, a) == b * a;
      }
    }
  }

  /** 0 <= a·b <= a for a >= 0 and b in [0, 1]. */
  lemma TimesBelowLeft(a: real, b: real)
    requires 0.0 <= a && 0.0 <= b <= 1.0
    ensures 0.0 <= Times(a, b) <= a
  {
    assert Times(a, b) == a * b;
  }

  lemma MulMonotone(a1: real, a2: real, b: real)
    requires a1 <= a2 && 0.0 <= b
    ensures a1 * b <= a2 * b
  {
  }

  lemma MulMonotoneRight(a: real, b1: real, b2: real)
    requires b1 <= b2 && 0.0 <= a
    ensures a * b1 <= a * b2
  {
  }

  lemma TimesMonotone(a1: real, a2: real, b: real)
    requires a1 <= a2 && 0.0 <= b
    ensures Times(a1, b) <= Times(a2, b)
  {
    MulMonotone(a1, a2, b);
    assert Times(a1, b) == a1 * b && Times(a2, b) == a2 * b;
  }

  lemma TimesMonotoneRight(a: real, b1: real, b2: real)
    requires b1 <= b2 && 0.0 <= a
    ensures Times(a, b1) <= Times(a, b2)
  {
    MulMonotoneRight(a, b1, b2);
    assert Times(a, b1) == a * b1 && Times(a, b2) == a * b2;
  }

  lemma DivMonotone(x1: real, x2: real, y: real)
    requires x1 <= x2 && y > 0.0
    ensures x1 / y <= x2 / y
  {
    assert x1 / y * y == x1;
    assert x2 / y * y == x2;
  }

  /** Fraction of the time budget used, `timeTakenMS / timeOutMS`. */
  function TimeFraction(timeTakenMS: nat, timeOutMS: nat): (f: real)
    requires timeOutMS > 0
    ensures f >= 0.0
    ensures timeTakenMS <= timeOutMS ==> f <= 1.0
    ensures timeTakenMS == 0 ==> f == 0.0
    ensures timeTakenMS == timeOutMS ==> f == 1.0
  {
    FractionInUnit(timeTakenMS as real, timeOutMS as real);
    timeTakenMS as real / timeOutMS as real
  }

  lemma TimeFractionMonotone(t1: nat, t2: nat, timeOutMS: nat)
    requires timeOutMS > 0 && t1 <= t2
    ensures TimeFraction(t1, timeOutMS) <= TimeFraction(t2, timeOutMS)
  {
    DivMonotone(t1 as real, t2 as real, timeOutMS as real);
  }

  /** `1 - (ptr - nElite) / (popSize - nElite)`: 1 at the first non-elite rank, falling towards 0. */
  function RankFactor(nElite: int, popSize: int, ptr: int): (f: real)
    requires popSize != nElite
    ensures nElite <= ptr < popSize ==> 0.0 < f <= 1.0
    ensures ptr == nElite ==> f == 1.0
  {
    FractionInUnit((ptr - nElite) as real, (popSize - nElite) as real);
    1.0 - (ptr - nElite) as real / (popSize - nElite) as real
  }

  lemma RankFactorMonotone(nElite: int, popSize: int, ptr1: int, ptr2: int)
    requires nElite < popSize && ptr1 <= ptr2
    ensures RankFactor(nElite, popSize, ptr2) <= RankFactor(nElite, popSize, ptr1)
  {
    DivMonotone((ptr1 - nElite) as real, (ptr2 - nElite) as real, (popSize - nElite) as real);
  }

  // ---------------------------------------------------------------------------
  // doMutate.js

  /** The threshold the draw is compared against (doMutate.js:11). */
  function DoMutateThreshold(nElite: int, popSize: int, ptr: int, timeTakenMS: nat, timeOutMS: nat): (p: real)
    requires popSize != nElite && timeOutMS > 0
    ensures nElite <= ptr < popSize && timeTakenMS <= timeOutMS ==> 0.0 <= p <= 1.0
  {
    var a := RankFactor(nElite, popSize, ptr);
    var b := TimeFraction(timeTakenMS, timeOutMS);
    ProductInUnit(a, b);
    Times(a, b)
  }

  /**
   * doMutate: mutate (rather than cross over) when the draw falls below the
   * threshold. At the start of the search mutation is never chosen; once the
   * time budget is used up the first non-elite rank always mutates.
   */
  function DoMutate(r: real, nElite: int, popSize: int, ptr: int, timeTakenMS: nat, timeOutMS: nat): (b: bool)
    requires popSize != nElite && timeOutMS > 0
    ensures timeTakenMS == 0 && 0.0 <= r ==> !b
    ensures ptr == nElite && timeTakenMS == timeOutMS && r < 1.0 ==> b
  {
    r < DoMutateThreshold(nElite, popSize, ptr, timeTakenMS, timeOutMS)
  }

  /** The threshold falls with rank, as the doc comment says. */
  lemma DoMutateThresholdFallsWithRank(nElite: int, popSize: int, ptr1: int, ptr2: int, t: nat, timeOutMS: nat)
    requires nElite <= ptr1 <= ptr2 < popSize && t <= timeOutMS && timeOutMS > 0
    ensures DoMutateThreshold(nElite, popSize, ptr2, t, timeOutMS) <= DoMutateThreshold(nElite, popSize, ptr1, t, timeOutMS)
  {
    RankFactorMonotone(nElite, popSize, ptr1, ptr2);
    TimesMonotone(RankFactor(nElite, popSize, ptr2), RankFactor(nElite, popSize, ptr1), TimeFraction(t, timeOutMS));
  }

  /** The threshold rises with elapsed time, as the doc comment says. */
  lemma DoMutateThresholdRisesWithTime(nElite: int, popSize: int, ptr: int, t1: nat, t2: nat, timeOutMS: nat)
    requires nElite <= ptr < popSize && t1 <= t2 <= timeOutMS && timeOutMS > 0
    ensures DoMutateThreshold(nElite, popSize, ptr, t1, timeOutMS) <= DoMutateThreshold(nElite, popSize, ptr, t2, timeOutMS)
  {
    TimeFractionMonotone(t1, t2, timeOutMS);
    TimesMonotoneRight(RankFactor(nElite, popSize, ptr), TimeFraction(t1, timeOutMS), TimeFraction(t2, timeOutMS));
  }

  // ---------------------------------------------------------------------------
  // pMutate.js

  /** pMutate (pMutate.js:10-12). */
  function PMutate(nElite: int, popSize: int, ptr: int, timeTakenMS: nat, timeOutMS: nat): (p: real)
    requires popSize != nElite && timeOutMS > 0
    ensures nElite <= ptr < popSize && timeTakenMS <= timeOutMS ==> 0.0 <= p <= 0.8
  {
    var a := RankFactor(nElite, popSize, ptr);
    var b := 1.0 - TimeFraction(timeTakenMS, timeOutMS);
    ProductInUnit(a, b);
    0.8 * Times(a, b)
  }

  /** 0.8 at the first non-elite rank at time 0; 0 once the time budget is used up (not 1, as the doc comment says). */
  lemma PMutateEndpoints(nElite: int, popSize: int, ptr: int, timeOutMS: nat)
    requires nElite <= ptr < popSize && timeOutMS > 0
    ensures PMutate(nElite, popSize, nElite, 0, timeOutMS) == 0.8
    ensures PMutate(nElite, popSize, ptr, timeOutMS, timeOutMS) == 0.0
  {
  }

  /** pMutate never rises with rank. */
  lemma PMutateFallsWithRank(nElite: int, popSize: int, ptr1: int, ptr2: int, t: nat, timeOutMS: nat)
    requires nElite <= ptr1 <= ptr2 < popSize && t <= timeOutMS && timeOutMS > 0
    ensures PMutate(nElite, popSize, ptr2, t, timeOutMS) <= PMutate(nElite, popSize, ptr1, t, timeOutMS)
  {
    RankFactorMonotone(nElite, popSize, ptr1, ptr2);
    TimesMonotone(RankFactor(nElite, popSize, ptr2), RankFactor(nElite, popSize, ptr1), 1.0 - TimeFraction(t, timeOutMS));
  }

  /** pMutate never rises with time. */
  lemma PMutateFallsWithTime(nElite: int, popSize: int, ptr: int, t1: nat, t2: nat, timeOutMS: nat)
    requires nElite <= ptr < popSize && t1 <= t2 <= timeOutMS && timeOutMS > 0
    ensures PMutate(nElite, popSize, ptr, t2, timeOutMS) <= PMutate(nElite, popSize, ptr, t1, timeOutMS)
  {
    TimeFractionMonotone(t1, t2, timeOutMS);
    TimesMonotoneRight(RankFactor(nElite, popSize, ptr), 1.0 - TimeFraction(t2, timeOutMS), 1.0 - TimeFraction(t1, timeOutMS));
  }

  // ---------------------------------------------------------------------------
  // nMutations.js

  /** nMutations (nMutations.js:10), with the draw `r`. */
  function NMutations(r: real, minNMutations: int, maxNMutations: int, timeTakenMS: nat, timeOutMS: nat): (n: int)
    requires timeOutMS > 0
    ensures 0.0 <= r < 1.0 && minNMutations < maxNMutations && timeTakenMS <= timeOutMS
            ==> minNMutations <= n < maxNMutations
  {
    var span := (maxNMutations - minNMutations) as real;
    var rest := 1.0 - TimeFraction(timeTakenMS, timeOutMS);
    if 0.0 <= r < 1.0 && minNMutations < maxNMutations && timeTakenMS <= timeOutMS then
      FloorBelowSpan(r, rest, maxNMutations - minNMutations);
      minNMutations + Times(r * span, rest).Floor
    else
      minNMutations + Times(r * span, rest).Floor
  }

  /** r · span · rest, for a draw r in [0, 1) and rest in [0, 1], floors to a value in [0, span). */
  lemma FloorBelowSpan(r: real, rest: real, span: int)
    requires 0.0 <= r < 1.0 && 0.0 <= rest <= 1.0 && span > 0
    ensures 0 <= Times(r * span as real, rest).Floor < span
  {
    var x := r * rest;
    MulMonotone(0.0, r, rest);
    MulMonotoneRight(r, rest, 1.0);
    assert 0.0 <= x < 1.0;
    MulMonotone(0.0, x, span as real);
    assert x * span as real < span as real by {
      assert (1.0 - x) * span as real > 0.0 by {
        PositiveProductReal(1.0 - x, span as real);
      }
    }
    assert Times(r * span as real, rest) == x * span as real;
  }

  lemma PositiveProductReal(a: real, b: real)
    requires a > 0.0 && b > 0.0
    ensures a * b > 0.0
  {
    MulMonotone(0.0, a, b);
    assert a * b != 0.0;
  }

  /** 0 <= floor(r * n) < n for a draw r in [0, 1) and n >= 1. */
  lemma FloorOfDrawBelow(r: real, n: int)
    requires 0.0 <= r < 1.0 && n >= 1
    ensures 0 <= Times(r, n as real).Floor < n
  {
    MulMonotone(0.0, r, n as real);
    assert Times(r, n as real) == r * n as real;
    assert (1.0 - r) * n as real > 0.0 by {
      PositiveProductReal(1.0 - r, n as real);
    }
  }

  /** min <= floor(r * min) <= 0 for a draw r in [0, 1) and min <= 0. */
  lemma FloorOfDrawNegative(r: real, m: int)
    requires 0.0 <= r < 1.0 && m <= 0
    ensures m <= Times(r, m as real).Floor <= 0
  {
    assert Times(r, m as real) == r * m as real;
    MulMonotone(r, 1.0, -m as real);
    MulMonotone(0.0, r, -m as real);
    assert r * (-m as real) == -(r * m as real);
  }

  /** With no spread, or with the time budget used up, exactly the minimum. */
  lemma NMutationsAtMinimum(r: real, minNMutations: int, maxNMutations: int, timeTakenMS: nat, timeOutMS: nat)
    requires timeOutMS > 0
    requires maxNMutations == minNMutations || timeTakenMS == timeOutMS
    ensures NMutations(r, minNMutations, maxNMutations, timeTakenMS, timeOutMS) == minNMutations
  {
  }

  /** For a fixed draw, fewer mutations as time passes. */
  lemma NMutationsMonotone(r: real, minNMutations: int, maxNMutations: int, t1: nat, t2: nat, timeOutMS: nat)
    requires timeOutMS > 0 && t1 <= t2 && 0.0 <= r && minNMutations <= maxNMutations
    ensures NMutations(r, minNMutations, maxNMutations, t2, timeOutMS) <= NMutations(r, minNMutations, maxNMutations, t1, timeOutMS)
  {
    var span := (maxNMutations - minNMutations) as real;
    TimeFractionMonotone(t1, t2, timeOutMS);
    MulMonotone(0.0, r, span);
    TimesMonotoneRight(r * span, 1.0 - TimeFraction(t2, timeOutMS), 1.0 - TimeFraction(t1, timeOutMS));
  }

  // ---------------------------------------------------------------------------
  // tournamentSize.js and pElite.js: linear interpolation in time

  /** tournamentSize (tournamentSize.js:8). Not rounded. */
  function TournamentSize(timeOutMS: nat, timeTakenMS: nat, minTournamentSize: real, maxTournamentSize: real): (s: real)
    requires timeOutMS > 0
    ensures timeTakenMS == 0 ==> s == minTournamentSize
    ensures timeTakenMS == timeOutMS ==> s == maxTournamentSize
  {
    assert Times(TimeFraction(timeTakenMS, timeOutMS), maxTournamentSize - minTournamentSize) ==
      TimeFraction(timeTakenMS, timeOutMS) * (maxTournamentSize - minTournamentSize);
    minTournamentSize + Times(TimeFraction(timeTakenMS, timeOutMS), maxTournamentSize - minTournamentSize)
  }

  /** lo + f · (hi − lo) lies between lo and hi for f in [0, 1]. */
  lemma InterpolationBetween(lo: real, hi: real, f: real)
    requires 0.0 <= f <= 1.0
    ensures lo <= hi ==> lo <= lo + Times(f, hi - lo) <= hi
    ensures hi <= lo ==> hi <= lo + Times(f, hi - lo) <= lo
  {
    var d := hi - lo;
    assert Times(f, d) == f * d;
    if d >= 0.0 {
      MulMonotone(f, 1.0, d);
      MulMonotone(0.0, f, d);
    } else {
      MulMonotone(f, 1.0, -d);
      MulMonotone(0.0, f, -d);
      assert f * d == -(f * -d);
    }
  }

  /** Within the time budget the size lies between the two bounds. */
  lemma TournamentSizeBetween(timeOutMS: nat, timeTakenMS: nat, lo: real, hi: real)
    requires timeOutMS > 0 && timeTakenMS <= timeOutMS
    ensures lo <= hi ==> lo <= TournamentSize(timeOutMS, timeTakenMS, lo, hi) <= hi
    ensures hi <= lo ==> hi <= TournamentSize(timeOutMS, timeTakenMS, lo, hi) <= lo
  {
    InterpolationBetween(lo, hi, TimeFraction(timeTakenMS, timeOutMS));
  }

  /** The size grows with time when the maximum is not below the minimum. */
  lemma TournamentSizeMonotone(timeOutMS: nat, t1: nat, t2: nat, lo: real, hi: real)
    requires timeOutMS > 0 && t1 <= t2 && lo <= hi
    ensures TournamentSize(timeOutMS, t1, lo, hi) <= TournamentSize(timeOutMS, t2, lo, hi)
  {
    TimeFractionMonotone(t1, t2, timeOutMS);
    TimesMonotone(TimeFraction(t1, timeOutMS), TimeFraction(t2, timeOutMS), hi - lo);
  }

  /** Intermediate sizes are fractional: half-way between 2 and 3 is 2.5. */
  lemma TournamentSizeFractional()
    ensures TournamentSize(1000, 500, 2.0, 3.0) == 2.5
  {
  }

  /** pElite (pElite.js:8). */
  function PElite(timeOutMS: nat, timeTakenMS: nat, minPElite: real, maxPElite: real): (p: real)
    requires timeOutMS > 0
    ensures timeTakenMS == 0 ==> p == minPElite
    ensures timeTakenMS == timeOutMS ==> p == maxPElite
  {
    assert Times(TimeFraction(timeTakenMS, timeOutMS), maxPElite - minPElite) ==
      TimeFraction(timeTakenMS, timeOutMS) * (maxPElite - minPElite);
    minPElite + Times(TimeFraction(timeTakenMS, timeOutMS), maxPElite - minPElite)
  }

  /** Bounds in [0, 1] give a probability at every time within the budget; it rises with time. */
  lemma PEliteIsProbability(timeOutMS: nat, t1: nat, t2: nat, lo: real, hi: real)
    requires timeOutMS > 0 && t1 <= t2 <= timeOutMS && 0.0 <= lo <= hi <= 1.0
    ensures 0.0 <= PElite(timeOutMS, t1, lo, hi) <= PElite(timeOutMS, t2, lo, hi) <= 1.0
  {
    TimeFractionMonotone(t1, t2, timeOutMS);
    TimesMonotone(TimeFraction(t1, timeOutMS), TimeFraction(t2, timeOutMS), hi - lo);
    InterpolationBetween(lo, hi, TimeFraction(t1, timeOutMS));
    InterpolationBetween(lo, hi, TimeFraction(t2, timeOutMS));
  }
}
