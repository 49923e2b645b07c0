/**
 * Ranking and selection: the weighted-dominance comparator of the
 * TypeScript engine (index.ts:321-334) and tournament selection over rank
 * bands (tournament.js). Scores are JS numbers; the random draws are a
 * parameter, each in [0, 1).
 */
module Ranking {
  import opened JsNumber
  import Schedules
  import opened Wrappers
  import Population
  import Sort

  // ---------------------------------------------------------------------------
  // compare (index.ts:321-334)

  /** The two weight totals compare builds: objectives where c1 wins add to score1, where c2 wins to score2. */
  datatype Totals = Totals(score1: Num, score2: Num)

  /** The totals after the first n objectives. */
  function Tally(scores: seq<seq<Num>>, weights: seq<Num>, c1: int, c2: int, n: nat): Totals
    requires n <= |scores|
  {
    if n == 0 then Totals(Finite(0.0), Finite(0.0))
    else
      var t := Tally(scores, weights, c1, c2, n - 1);
      var x := At(scores[n - 1], c1);
      var y := At(scores[n - 1], c2);
      if Gt(x, y) then Totals(Add(t.score1, At(weights, n - 1)), t.score2)
      else if Lt(x, y) then Totals(t.score1, Add(t.score2, At(weights, n - 1)))
      else t
  }

  /** `score1 > score2 ? -1 : score1 < score2 ? 1 : 0` */
  function Verdict(t: Totals): int
  {
    if Gt(t.score1, t.score2) then -1 else if Lt(t.score1, t.score2) then 1 else 0
  }

  /** compare: a tally loop over the objectives; candidate 1 sorts first (-1) when it dominates on more weight. */
  method Compare(scores: seq<seq<Num>>, weights: seq<Num>, cIdx1: int, cIdx2: int) returns (r: int)
    ensures r == Verdict(Tally(scores, weights, cIdx1, cIdx2, |scores|))
    ensures r in {-1, 0, 1}
  {
    var score1 := Finite(0.0);
    var score2 := Finite(0.0);
    var objIdx := 0;
    while objIdx < |scores|
      invariant 0 <= objIdx <= |scores|
      invariant Totals(score1, score2) == Tally(scores, weights, cIdx1, cIdx2, objIdx)
    {
      var objectiveScores := scores[objIdx];
      if Gt(At(objectiveScores, cIdx1), At(objectiveScores, cIdx2)) {
        score1 := Add(score1, At(weights, objIdx));
      } else if Lt(At(objectiveScores, cIdx1), At(objectiveScores, cIdx2)) {
        score2 := Add(score2, At(weights, objIdx));
      }
      objIdx := objIdx + 1;
    }
    r := if Gt(score1, score2) then -1 else if Lt(score1, score2) then 1 else 0;
  }

  /** A candidate never beats itself on any objective, so both totals stay 0. */
  lemma {:induction false} TallySelf(scores: seq<seq<Num>>, weights: seq<Num>, c: int, n: nat)
    requires n <= |scores|
    ensures Tally(scores, weights, c, c, n) == Totals(Finite(0.0), Finite(0.0))
  {
    if n > 0 {
      TallySelf(scores, weights, c, n - 1);
    }
  }

  /** compare(a, a) == 0. */
  lemma CompareSelf(scores: seq<seq<Num>>, weights: seq<Num>, c: int)
    ensures Verdict(Tally(scores, weights, c, c, |scores|)) == 0
  {
    TallySelf(scores, weights, c, |scores|);
  }

  /** Swapping the candidates swaps the totals. */
  lemma {:induction false} TallySwap(scores: seq<seq<Num>>, weights: seq<Num>, c1: int, c2: int, n: nat)
    requires n <= |scores|
    ensures Tally(scores, weights, c2, c1, n) ==
      Totals(Tally(scores, weights, c1, c2, n).score2, Tally(scores, weights, c1, c2, n).score1)
  {
    if n > 0 {
      TallySwap(scores, weights, c1, c2, n - 1);
    }
  }

  /** compare(a, b) == -compare(b, a). */
  lemma CompareAntisymmetric(scores: seq<seq<Num>>, weights: seq<Num>, c1: int, c2: int)
    ensures Verdict(Tally(scores, weights, c1, c2, |scores|)) == -Verdict(Tally(scores, weights, c2, c1, |scores|))
  {
    TallySwap(scores, weights, c1, c2, |scores|);
  }

  /** With one objective of positive weight, candidate 1 sorts first exactly when its score is higher. */
  lemma SingleObjective(scores: seq<seq<Num>>, weights: seq<Num>, c1: int, c2: int)
    requires |scores| == 1 && |weights| >= 1 && Gt(weights[0], Finite(0.0))
    ensures Verdict(Tally(scores, weights, c1, c2, 1)) == -1 <==> Gt(At(scores[0], c1), At(scores[0], c2))
    ensures Verdict(Tally(scores, weights, c1, c2, 1)) == 1 <==> Lt(At(scores[0], c1), At(scores[0], c2))
  {
    assert Tally(scores, weights, c1, c2, 0) == Totals(Finite(0.0), Finite(0.0));
  }

  /** compare as a sort comparator: candidate x goes ahead of y when compare(x, y) is -1. */
  function ByCompare(scores: seq<seq<Num>>, weights: seq<Num>): (nat, nat) -> bool
  {
    (x: nat, y: nat) => Verdict(Tally(scores, weights, x, y, |scores|)) == -1
  }

  /** One objective of positive weight, with no NaN among the first n candidates' scores. */
  predicate SingleScored(scores: seq<seq<Num>>, weights: seq<Num>, n: nat)
  {
    |scores| == 1 && |weights| >= 1 && Gt(weights[0], Finite(0.0)) && forall c | 0 <= c < n :: At(scores[0], c) != NaN
  }

  /** With a single scored objective, compare orders the candidates as their scores do, a strict weak order. */
  lemma SingleScoredIsStrictWeak(scores: seq<seq<Num>>, weights: seq<Num>, n: nat)
    requires SingleScored(scores, weights, n)
    ensures Sort.StrictWeakBelow(ByCompare(scores, weights), n)
  {
    forall x: nat, y: nat
      ensures ByCompare(scores, weights)(x, y) == Sort.ByScore(scores[0])(x, y)
    {
      SingleObjective(scores, weights, x, y);
    }
    Sort.ByScoreIsStrictWeak(scores[0], n);
  }

  /** Sorted by compare with a single scored objective is best first by that objective. */
  lemma SingleScoredRanked(order: seq<nat>, scores: seq<seq<Num>>, weights: seq<Num>, n: nat)
    requires SingleScored(scores, weights, n)
    requires Population.IsPermutation(order, n) && Sort.SortedBy(order, ByCompare(scores, weights))
    ensures Sort.RankedBy(order, scores[0])
  {
    forall x: nat, y: nat
      ensures ByCompare(scores, weights)(x, y) == Sort.ByScore(scores[0])(x, y)
    {
      SingleObjective(scores, weights, x, y);
    }
    Sort.SortedByScoreIsRanked(order, scores[0], n);
  }

  // ---------------------------------------------------------------------------
  // tournament (tournament.js)

  /**
   * The rank position a pick reads (tournament.js:11, 15): floor(r * nElite)
   * in the elite band, nElite + floor(r * (popSize - nElite)) outside it.
   */
  function Position(elite: bool, r: real, nElite: int, popSize: int): int
  {
    if elite then Schedules.Times(r, nElite as real).Floor
    else nElite + Schedules.Times(r, (popSize - nElite) as real).Floor
  }

  /** Elite picks land in [0, nElite) and the others in [nElite, popSize). */
  lemma PositionInBand(elite: bool, r: real, nElite: int, popSize: int)
    requires 0.0 <= r < 1.0 && 0 <= nElite
    requires elite ==> nElite >= 1
    requires !elite ==> popSize > nElite
    ensures elite ==> 0 <= Position(elite, r, nElite, popSize) < nElite
    ensures !elite ==> nElite <= Position(elite, r, nElite, popSize) < popSize
  {
    if elite {
      Schedules.FloorOfDrawBelow(r, nElite);
    } else {
      Schedules.FloorOfDrawBelow(r, popSize - nElite);
    }
  }

  /** `candIdxs[pos]` stored into a Uint32Array: a read past the end is undefined, which the store turns into 0. */
  function PickAt(candIdxs: seq<nat>, pos: int): nat
  {
    if 0 <= pos < |candIdxs| then candIdxs[pos] else 0
  }

  /**
   * The picks of one tournament: draws[0] is compared with pElite once,
   * then draws[1..] choose the positions, all in the same band.
   */
  function Picks(draws: seq<real>, tournamentSize: nat, pElite: real, candIdxs: seq<nat>, popSize: int, nElite: int): (p: seq<nat>)
    requires |draws| > tournamentSize
    ensures |p| == tournamentSize
  {
    seq(tournamentSize, i requires 0 <= i < tournamentSize =>
      PickAt(candIdxs, Position(draws[0] < pElite, draws[i + 1], nElite, popSize)))
  }

  /** x is the candidate at one of the rank positions lo .. hi-1. */
  predicate FromRanks(x: nat, candIdxs: seq<nat>, lo: int, hi: int)
  {
    exists pos | lo <= pos < hi && 0 <= pos < |candIdxs| :: x == candIdxs[pos]
  }

  /** All picks come from one band: the first nElite ranks or the rest. */
  lemma PicksFromOneBand(draws: seq<real>, tournamentSize: nat, pElite: real, candIdxs: seq<nat>, popSize: int, nElite: int)
    requires |draws| > tournamentSize && forall i | 0 <= i < |draws| :: 0.0 <= draws[i] < 1.0
    requires 1 <= nElite < popSize <= |candIdxs|
    ensures draws[0] < pElite ==> forall i | 0 <= i < tournamentSize ::
      FromRanks(Picks(draws, tournamentSize, pElite, candIdxs, popSize, nElite)[i], candIdxs, 0, nElite)
    ensures !(draws[0] < pElite) ==> forall i | 0 <= i < tournamentSize ::
      FromRanks(Picks(draws, tournamentSize, pElite, candIdxs, popSize, nElite)[i], candIdxs, nElite, popSize)
  {
    var elite := draws[0] < pElite;
    var picks := Picks(draws, tournamentSize, pElite, candIdxs, popSize, nElite);
    forall i | 0 <= i < tournamentSize
      ensures elite ==> FromRanks(picks[i], candIdxs, 0, nElite)
      ensures !elite ==> FromRanks(picks[i], candIdxs, nElite, popSize)
    {
      var pos := Position(elite, draws[i + 1], nElite, popSize);
      PositionInBand(elite, draws[i + 1], nElite, popSize);
      assert picks[i] == candIdxs[pos];
    }
  }

  /**
   * tournament: fills a local pick buffer, then keeps the first pick whose
   * score no later pick strictly exceeds. With no pick at all (a size of 0)
   * the result is undefined, modelled as None. Only the local buffer is
   * written.
   */
  method Tournament(draws: seq<real>, tournamentSize: nat, pElite: real, candIdxs: array<nat>, scores: array<Num>,
                    popSize: int, nElite: int) returns (best: Option<nat>)
    requires |draws| > tournamentSize
    ensures var picks := Picks(draws, tournamentSize, pElite, candIdxs[..], popSize, nElite);
      && (best.None? <==> tournamentSize == 0)
      && (best.Some? ==> exists j | 0 <= j < tournamentSize :: picks[j] == best.value && Earliest(picks, scores[..], j))
      && (best.Some? ==> forall i | 0 <= i < tournamentSize :: !Gt(At(scores[..], picks[i]), At(scores[..], best.value)))
      && (tournamentSize > 0 ==> best == Some(picks[Winner(picks, scores[..], tournamentSize)]))
  {
    var s := scores[..];
    var idxs := new nat[tournamentSize];
    var elite := draws[0] < pElite;
    var i := 0;
    while i < tournamentSize
      invariant 0 <= i <= tournamentSize
      invariant forall k | 0 <= k < i :: idxs[k] == PickAt(candIdxs[..], Position(elite, draws[k + 1], nElite, popSize))
    {
      idxs[i] := PickAt(candIdxs[..], Position(elite, draws[i + 1], nElite, popSize));
      i := i + 1;
    }
    ghost var picks := Picks(draws, tournamentSize, pElite, candIdxs[..], popSize, nElite);
    assert idxs[..] == picks;
    if tournamentSize == 0 {
      return None;
    }
    var bestIdx := idxs[0];
    var bestScore := At(s, bestIdx);
    ghost var j := 0;
    i := 1;
    while i < tournamentSize
      invariant 1 <= i <= tournamentSize && 0 <= j < i
      invariant bestIdx == picks[j] && bestScore == At(s, bestIdx)
      invariant j == Winner(picks, s, i)
    {
      var idx := idxs[i];
      if Gt(At(s, idx), bestScore) {
        bestIdx := idx;
        bestScore := At(s, idx);
        j := i;
      }
      i := i + 1;
    }
    WinnerIsBest(picks, s, tournamentSize);
    best := Some(bestIdx);
  }

  /** Among picks of equal best score the earliest wins: every earlier pick with a number as score scored strictly less. */
  predicate Earliest(picks: seq<nat>, scores: seq<Num>, j: int)
    requires 0 <= j < |picks|
  {
    forall k | 0 <= k < j :: At(scores, picks[k]) != NaN && At(scores, picks[j]) != NaN ==>
      Lt(At(scores, picks[k]), At(scores, picks[j]))
  }

  /**
   * The position among the first n picks where tournament's running best
   * ends: the first pick, replaced by each later pick whose score is
   * strictly greater (a `>` that is false with NaN on either side).
   */
  function Winner(picks: seq<nat>, scores: seq<Num>, n: nat): (w: nat)
    requires 1 <= n <= |picks|
    ensures w < n
  {
    if n == 1 then 0
    else
      var w := Winner(picks, scores, n - 1);
      if Gt(At(scores, picks[n - 1]), At(scores, picks[w])) then n - 1 else w
  }

  /** No pick scores strictly higher than the winner, and every earlier pick with a number as score scored strictly less. */
  lemma {:induction false} WinnerIsBest(picks: seq<nat>, scores: seq<Num>, n: nat)
    requires 1 <= n <= |picks|
    ensures var w := Winner(picks, scores, n);
      (forall i | 0 <= i < n :: !Gt(At(scores, picks[i]), At(scores, picks[w]))) && Earliest(picks, scores, w)
  {
    if n > 1 {
      WinnerIsBest(picks, scores, n - 1);
      var w := Winner(picks, scores, n - 1);
      var last := At(scores, picks[n - 1]);
      if Gt(last, At(scores, picks[w])) {
        forall i | 0 <= i < n - 1
          ensures !Gt(At(scores, picks[i]), last)
          ensures At(scores, picks[i]) != NaN ==> Lt(At(scores, picks[i]), last)
        {
          if Gt(At(scores, picks[i]), last) {
            GtTransitive(At(scores, picks[i]), last, At(scores, picks[w]));
          }
        }
      }
    }
  }

  /**
   * With no NaN among the picks' scores the winner is the one position that
   * is a maximum and the earliest pick with that score.
   */
  lemma WinnerUnique(picks: seq<nat>, scores: seq<Num>, n: nat, j: nat)
    requires 1 <= n <= |picks| && j < n
    requires forall i | 0 <= i < n :: At(scores, picks[i]) != NaN
    requires forall i | 0 <= i < n :: !Gt(At(scores, picks[i]), At(scores, picks[j]))
    requires Earliest(picks, scores, j)
    ensures j == Winner(picks, scores, n)
  {
    WinnerIsBest(picks, scores, n);
  }

  /** Picks scoring 1, NaN and 2: the NaN pick neither replaces the running best nor blocks the later 2. */
  lemma WinnerPassesNaN()
    ensures Winner([0, 1, 2], [Finite(1.0), NaN, Finite(2.0)], 3) == 2
  {
  }

  /** Picks scoring NaN and 5: no later pick is `>` NaN, so the first pick stays the winner. */
  lemma WinnerKeepsLeadingNaN()
    ensures Winner([0, 1], [NaN, Finite(5.0)], 2) == 0
  {
  }
}
