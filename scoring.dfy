/**
 * score.js: evaluating every candidate of the flat population with the
 * fitness function. The fitness function is a foreign call and is taken as a
 * parameter `f` from a candidate's genes to the number it returns;
 * converting a non-number result to a number is not modelled.
 */
module Scoring {
  import opened JsNumber
  import opened Population

  /**
   * The guard of scoreChecked (score.js:12-16): NaN becomes -Infinity and
   * anything else is clamped into [-Number.MAX_VALUE, Number.MAX_VALUE].
   */
  function Guard(x: Num): (y: Num)
    ensures y == NegInf <==> x == NaN
    ensures x != NaN ==> y.Finite? && -MaxValue <= y.v <= MaxValue
    ensures x.Finite? && -MaxValue <= x.v <= MaxValue ==> y == x
    ensures x == PosInf ==> y == Finite(MaxValue)
    ensures x == NegInf ==> y == Finite(-MaxValue)
  {
    if x == NaN then NegInf else MathMin(Finite(MaxValue), MathMax(Finite(-MaxValue), x))
  }

  /** A candidate whose fitness is NaN ranks below every other candidate, even one that returned -Infinity. */
  lemma NaNRanksLowest(x: Num)
    requires x != NaN
    ensures Lt(Guard(NaN), Guard(x))
  {
  }

  /** The guard keeps the order of the results it clamps. */
  lemma GuardMonotone(x: Num, y: Num)
    requires Le(x, y)
    ensures Le(Guard(x), Guard(y))
  {
    assert x != NaN && y != NaN;
  }

  /** The two scoring functions wrapper can return. */
  datatype Variant = Checked | Unchecked

  /** What a variant stores for a raw fitness result x. */
  function Stored(v: Variant, x: Num): Num
  {
    match v
    case Checked => Guard(x)
    case Unchecked => x
  }

  /** wrapper (score.js:34-40): the checked variant when asked to check, the raw one otherwise. */
  function Wrapper(doCheck: bool): (v: Variant)
  {
    if doCheck then Checked else Unchecked
  }

  /** The variant wrapper returns keeps NaN out of the scores exactly when checking was asked for. */
  lemma WrapperGuardsIffChecked(doCheck: bool)
    ensures (forall x :: Stored(Wrapper(doCheck), x) != NaN) <==> doCheck
  {
    if !doCheck {
      assert Stored(Wrapper(doCheck), NaN) == NaN;
    }
  }

  /**
   * After Wrapper(true), every stored score is -Infinity (only from NaN) or
   * a finite value within +-MAX_VALUE.
   */
  lemma CheckedScoresBounded(x: Num)
    ensures Stored(Wrapper(true), x) == NegInf || (Stored(Wrapper(true), x).Finite? && -MaxValue <= Stored(Wrapper(true), x).v <= MaxValue)
    ensures Stored(Wrapper(true), x) == NegInf ==> x == NaN
  {
  }

  /** The score a variant leaves for candidate c. */
  function ScoreOf(v: Variant, pop: seq<int>, f: seq<int> -> Num, c: nat, nGenes: nat): Num
  {
    Stored(v, f(Slice(pop, c, nGenes)))
  }

  /**
   * scoreChecked (score.js:4-19): candidate c < popSize receives the guarded
   * fitness of its slice. A write past the end of the typed array `scores`
   * is ignored, as a typed array does.
   */
  method ScoreChecked(pop: array<int>, scores: array<Num>, popSize: nat, f: seq<int> -> Num, nGenes: nat)
    modifies scores
    ensures forall c | 0 <= c < scores.Length ::
      scores[c] == if c < popSize then ScoreOf(Checked, pop[..], f, c, nGenes) else old(scores[c])
  {
    var cIdx := 0;
    while cIdx < popSize
      invariant 0 <= cIdx <= popSize
      invariant forall c | 0 <= c < scores.Length ::
        scores[c] == if c < cIdx then ScoreOf(Checked, pop[..], f, c, nGenes) else old(scores[c])
    {
      if cIdx < scores.Length {
        scores[cIdx] := f(SubArray(pop[..], cIdx * nGenes, cIdx * nGenes + nGenes));
        if scores[cIdx] == NaN {
          scores[cIdx] := NegInf;
        } else {
          scores[cIdx] := MathMin(Finite(MaxValue), MathMax(Finite(-MaxValue), scores[cIdx]));
        }
      }
      cIdx := cIdx + 1;
    }
  }

  /** score (score.js:24-28): candidate c < popSize receives the raw fitness of its slice. */
  method Score(pop: array<int>, scores: array<Num>, popSize: nat, f: seq<int> -> Num, nGenes: nat)
    modifies scores
    ensures forall c | 0 <= c < scores.Length ::
      scores[c] == if c < popSize then ScoreOf(Unchecked, pop[..], f, c, nGenes) else old(scores[c])
  {
    var cIdx := 0;
    while cIdx < popSize
      invariant 0 <= cIdx <= popSize
      invariant forall c | 0 <= c < scores.Length ::
        scores[c] == if c < cIdx then ScoreOf(Unchecked, pop[..], f, c, nGenes) else old(scores[c])
    {
      if cIdx < scores.Length {
        scores[cIdx] := f(SubArray(pop[..], cIdx * nGenes, cIdx * nGenes + nGenes));
      }
      cIdx := cIdx + 1;
    }
  }
}
