/**
 * Numeric options of the TypeScript engine (index.ts:62-120). An option is
 * given as a number, a `[start, end]` pair or a `{start, end, whenFit}`
 * object; `getNumOpt` normalises it to the object form and, when a base
 * (`percentageOf`) is given, multiplies a start or end below 1 by the base
 * until it is at least 1. `optToGetter` turns the normalised option into a
 * value that depends on the elapsed time and the rank.
 *
 * getNumOpt is a recursion that need not terminate; the model bounds it with
 * `fuel` and answers None when the fuel runs out. The lemmas below show
 * that with a base above 1 and a positive start and end the recursion ends,
 * and that with a non-negative base a start or end that never climbs to 1
 * makes it go on forever; a negative base is covered by neither.
 */
module NumOpts {
  import opened Wrappers
  import Schedules

  /** The `Behaviour` enum (index.ts:25). */
  datatype Behaviour = INCREASES | DECREASES | CONSTANT

  /** The `NumOpt` union (index.ts:27); an absent `whenFit` is None. */
  datatype NumOpt =
    | Number(c: real)
    | Pair(first: real, second: real)
    | Object(start: real, end: real, whenFit: Option<Behaviour>)

  /** What getNumOpt returns: the object form with `whenFit` set. */
  datatype Resolved = Resolved(start: real, end: real, whenFit: Behaviour)

  function StartOf(o: NumOpt): real
  {
    match o
    case Number(c) => c
    case Pair(a, _) => a
    case Object(s, _, _) => s
  }

  function EndOf(o: NumOpt): real
  {
    match o
    case Number(c) => c
    case Pair(_, b) => b
    case Object(_, e, _) => e
  }

  /** The behaviour an option asks for; CONSTANT unless an object names one. */
  function WhenFitOf(o: NumOpt): Behaviour
  {
    match o
    case Object(_, _, Some(w)) => w
    case _ => CONSTANT
  }

  /** `x *= percentageOf` (index.ts:79, 84). */
  function Scaled(x: real, percentageOf: real): real
  {
    x * percentageOf
  }

  /**
   * getNumOpt (index.ts:62-90), one source call per unit of fuel. A start is
   * scaled before an end, and each is scaled only while it is below 1.
   */
  function GetNumOpt(percentageOf: Option<real>, o: NumOpt, fuel: nat): (r: Option<Resolved>)
    decreases fuel
    ensures r.Some? ==> r.value.whenFit == WhenFitOf(o)
    ensures r.Some? && percentageOf.None? ==> r.value.start == StartOf(o) && r.value.end == EndOf(o)
    ensures r.Some? && percentageOf.Some? ==> r.value.start >= 1.0 && r.value.end >= 1.0
    ensures r.Some? && StartOf(o) >= 1.0 ==> r.value.start == StartOf(o)
    ensures r.Some? && EndOf(o) >= 1.0 ==> r.value.end == EndOf(o)
  {
    if fuel == 0 then None
    else
      match o
      case Number(c) => GetNumOpt(percentageOf, Pair(c, c), fuel - 1)
      case Pair(a, b) => GetNumOpt(percentageOf, Object(a, b, None), fuel - 1)
      case Object(s, e, whenFit) =>
        if whenFit.None? then
          GetNumOpt(percentageOf, Object(s, e, Some(CONSTANT)), fuel - 1)
        else if percentageOf.Some? && s < 1.0 then
          GetNumOpt(percentageOf, Object(Scaled(s, percentageOf.value), e, whenFit), fuel - 1)
        else if percentageOf.Some? && e < 1.0 then
          GetNumOpt(percentageOf, Object(s, Scaled(e, percentageOf.value), whenFit), fuel - 1)
        else
          Some(Resolved(s, e, whenFit.value))
  }

  /** A bare number with no base becomes a constant option of that number. */
  lemma NumberResolves(c: real, fuel: nat)
    requires fuel >= 4
    ensures GetNumOpt(None, Number(c), fuel) == Some(Resolved(c, c, CONSTANT))
  {
    PairResolves(c, c, fuel - 1);
  }

  /** A pair with no base becomes `{start: a, end: b, whenFit: CONSTANT}`. */
  lemma PairResolves(a: real, b: real, fuel: nat)
    requires fuel >= 3
    ensures GetNumOpt(None, Pair(a, b), fuel) == Some(Resolved(a, b, CONSTANT))
  {
    assert GetNumOpt(None, Object(a, b, Some(CONSTANT)), fuel - 2) == Some(Resolved(a, b, CONSTANT));
    assert GetNumOpt(None, Object(a, b, None), fuel - 1) == Some(Resolved(a, b, CONSTANT));
  }

  /** The nElite default `{start: 0.1, end: 0.3}` (index.ts:140) with a population of 300 resolves to 30 and 90. */
  lemma DefaultNEliteResolves()
    ensures GetNumOpt(Some(300.0), Object(0.1, 0.3, None), 4) == Some(Resolved(30.0, 90.0, CONSTANT))
  {
  }

  /** Values that scaling by a non-negative base can never lift to 1 or above. */
  predicate StaysBelowOne(x: real, q: real)
  {
    x < 1.0 && (x <= 0.0 || q <= 1.0)
  }

  lemma StaysBelowOneStep(x: real, q: real)
    requires q >= 0.0 && StaysBelowOne(x, q)
    ensures StaysBelowOne(x * q, q)
  {
    if x <= 0.0 {
      Schedules.MulMonotone(x, 0.0, q);
    } else {
      Schedules.MulMonotoneRight(x, q, 1.0);
    }
  }

  /**
   * A start that is zero or negative, or a fraction with a base of at most 1,
   * makes getNumOpt recurse forever: no amount of fuel gives a result.
   */
  lemma {:induction false} StartDiverges(q: real, s: real, e: real, w: Behaviour, fuel: nat)
    requires q >= 0.0 && StaysBelowOne(s, q)
    ensures GetNumOpt(Some(q), Object(s, e, Some(w)), fuel) == None
    decreases fuel
  {
    if fuel > 0 {
      StaysBelowOneStep(s, q);
      StartDiverges(q, s * q, e, w, fuel - 1);
      assert GetNumOpt(Some(q), Object(s, e, Some(w)), fuel) == GetNumOpt(Some(q), Object(Scaled(s, q), e, Some(w)), fuel - 1);
    }
  }

  /** The same for the end, once the start is at least 1. */
  lemma {:induction false} EndDiverges(q: real, s: real, e: real, w: Behaviour, fuel: nat)
    requires q >= 0.0 && s >= 1.0 && StaysBelowOne(e, q)
    ensures GetNumOpt(Some(q), Object(s, e, Some(w)), fuel) == None
    decreases fuel
  {
    if fuel > 0 {
      StaysBelowOneStep(e, q);
      EndDiverges(q, s, e * q, w, fuel - 1);
      assert GetNumOpt(Some(q), Object(s, e, Some(w)), fuel) == GetNumOpt(Some(q), Object(s, Scaled(e, q), Some(w)), fuel - 1);
    }
  }

  /** Example: an nElite option of 0 with a population of 300 never resolves. */
  lemma ZeroNEliteDiverges(fuel: nat)
    ensures GetNumOpt(Some(300.0), Number(0.0), fuel) == None
  {
    var p := Some(300.0);
    if fuel >= 3 {
      StartDiverges(300.0, 0.0, 0.0, CONSTANT, fuel - 3);
    }
    if fuel >= 3 {
      assert GetNumOpt(p, Object(0.0, 0.0, None), fuel - 2) == GetNumOpt(p, Object(0.0, 0.0, Some(CONSTANT)), fuel - 3);
    }
    if fuel >= 2 {
      assert GetNumOpt(p, Pair(0.0, 0.0), fuel - 1) == GetNumOpt(p, Object(0.0, 0.0, None), fuel - 2);
    }
  }

  lemma PositiveProduct(a: real, b: real)
    requires a > 0.0 && b > 0.0
    ensures a * b > 0.0
  {
    Schedules.MulMonotone(0.0, a, b);
    assert a * b != 0.0;
  }

  /** A number of scaling steps that lifts a positive x to at least 1 with a base above 1. */
  function FuelBound(x: real, q: real): (n: nat)
    requires x > 0.0 && q > 1.0
    ensures n as real * (x * (q - 1.0)) >= 1.0 - x
  {
    if x >= 1.0 then 0
    else
      var d := x * (q - 1.0);
      PositiveProduct(x, q - 1.0);
      var k := ((1.0 - x) / d).Floor + 1;
      assert k as real > (1.0 - x) / d;
      Schedules.MulMonotone((1.0 - x) / d, k as real, d);
      assert (1.0 - x) / d * d == 1.0 - x;
      k
  }

  /** One scaling step keeps the fuel bound: x·q needs one step fewer than x. */
  lemma FuelBoundStep(x: real, q: real, n: nat)
    requires x > 0.0 && q > 1.0 && n >= 1
    requires n as real * (x * (q - 1.0)) >= 1.0 - x
    ensures (n - 1) as real * (x * q * (q - 1.0)) >= 1.0 - x * q
  {
    var d := x * (q - 1.0);
    PositiveProduct(x, q - 1.0);
    Schedules.MulMonotoneRight((n - 1) as real, d, d * q);
    assert d * q == x * q * (q - 1.0);
    assert (n - 1) as real * d == n as real * d - d;
  }

  /** With the start at least 1, an end that is positive is lifted within its fuel bound. */
  lemma {:induction false} EndTerminates(q: real, s: real, e: real, w: Behaviour, n: nat, fuel: nat)
    requires q > 1.0 && s >= 1.0 && e > 0.0
    requires n as real * (e * (q - 1.0)) >= 1.0 - e && fuel >= n + 1
    ensures GetNumOpt(Some(q), Object(s, e, Some(w)), fuel).Some?
    decreases n
  {
    if e < 1.0 {
      assert n >= 1;
      FuelBoundStep(e, q, n);
      PositiveProduct(e, q);
      EndTerminates(q, s, e * q, w, n - 1, fuel - 1);
      assert GetNumOpt(Some(q), Object(s, e, Some(w)), fuel) == GetNumOpt(Some(q), Object(s, Scaled(e, q), Some(w)), fuel - 1);
    }
  }

  /** A positive start and end with a base above 1 resolve within the two fuel bounds. */
  lemma {:induction false} ScalingTerminates(q: real, s: real, e: real, w: Behaviour, m: nat, n: nat, fuel: nat)
    requires q > 1.0 && s > 0.0 && e > 0.0
    requires m as real * (s * (q - 1.0)) >= 1.0 - s
    requires n as real * (e * (q - 1.0)) >= 1.0 - e
    requires fuel >= m + n + 1
    ensures GetNumOpt(Some(q), Object(s, e, Some(w)), fuel).Some?
    decreases m
  {
    if s < 1.0 {
      assert m >= 1;
      FuelBoundStep(s, q, m);
      PositiveProduct(s, q);
      ScalingTerminates(q, s * q, e, w, m - 1, n, fuel - 1);
      assert GetNumOpt(Some(q), Object(s, e, Some(w)), fuel) == GetNumOpt(Some(q), Object(Scaled(s, q), e, Some(w)), fuel - 1);
    } else {
      EndTerminates(q, s, e, w, n, fuel);
    }
  }

  /**
   * With a base above 1, a number, pair or object whose start and end are
   * positive resolves within m + n + 4 steps, where m and n are scaling
   * steps that lift the start and the end to 1 (FuelBound supplies them).
   */
  lemma OptionTerminates(q: real, o: NumOpt, m: nat, n: nat)
    requires q > 1.0 && StartOf(o) > 0.0 && EndOf(o) > 0.0
    requires m as real * (StartOf(o) * (q - 1.0)) >= 1.0 - StartOf(o)
    requires n as real * (EndOf(o) * (q - 1.0)) >= 1.0 - EndOf(o)
    ensures GetNumOpt(Some(q), o, m + n + 4).Some?
  {
    var s, e, w := StartOf(o), EndOf(o), WhenFitOf(o);
    var fuel := m + n + 4;
    match o
    case Number(c) =>
      ScalingTerminates(q, s, e, w, m, n, fuel - 3);
      assert GetNumOpt(Some(q), Object(c, c, None), fuel - 2) == GetNumOpt(Some(q), Object(c, c, Some(CONSTANT)), fuel - 3);
      assert GetNumOpt(Some(q), Pair(c, c), fuel - 1) == GetNumOpt(Some(q), Object(c, c, None), fuel - 2);
    case Pair(a, b) =>
      ScalingTerminates(q, s, e, w, m, n, fuel - 2);
      assert GetNumOpt(Some(q), Object(a, b, None), fuel - 1) == GetNumOpt(Some(q), Object(a, b, Some(CONSTANT)), fuel - 2);
    case Object(_, _, None) =>
      ScalingTerminates(q, s, e, w, m, n, fuel - 1);
    case Object(_, _, Some(_)) =>
      ScalingTerminates(q, s, e, w, m, n, fuel);
  }

  // ---------------------------------------------------------------------------
  // optToGetter (index.ts:92-120)

  /**
   * What optToGetter installs: a plain value when start equals end, else a
   * getter over elapsed time and rank.
   */
  datatype Getter =
    | Fixed(value: real)
    | Timed(start: real, end: real, whenFit: Behaviour)

  function OptToGetter(r: Resolved): (g: Getter)
    ensures g.Fixed? <==> r.start == r.end
  {
    if r.start == r.end then Fixed(r.start) else Timed(r.start, r.end, r.whenFit)
  }

  /**
   * The share of the range covered at `timeTakenMS` for the candidate at
   * `rank`: the fraction of the time budget used, scaled by the rank share
   * (DECREASES) or its complement (INCREASES).
   */
  function Weight(w: Behaviour, timeTakenMS: nat, timeOutMS: nat, rank: nat, popSize: nat): real
    requires timeOutMS > 0 && popSize > 0
  {
    var f := Schedules.TimeFraction(timeTakenMS, timeOutMS);
    var k := rank as real / popSize as real;
    match w
    case CONSTANT => f
    case DECREASES => Schedules.Times(f, k)
    case INCREASES => Schedules.Times(f, 1.0 - k)
  }

  /** Within the time budget and for ranks up to popSize the weight is a fraction. */
  lemma WeightInUnit(w: Behaviour, timeTakenMS: nat, timeOutMS: nat, rank: nat, popSize: nat)
    requires timeOutMS > 0 && popSize > 0 && timeTakenMS <= timeOutMS && rank <= popSize
    ensures 0.0 <= Weight(w, timeTakenMS, timeOutMS, rank, popSize) <= 1.0
  {
    var f := Schedules.TimeFraction(timeTakenMS, timeOutMS);
    var k := rank as real / popSize as real;
    Schedules.FractionInUnit(rank as real, popSize as real);
    match w
    case CONSTANT =>
    case DECREASES => Schedules.ProductInUnit(f, k);
    case INCREASES => Schedules.ProductInUnit(f, 1.0 - k);
  }

  /** The option's value at `timeTakenMS` for the candidate at `rank`: start plus its weighted share of the range. */
  function Value(g: Getter, timeTakenMS: nat, timeOutMS: nat, rank: nat, popSize: nat): real
    requires timeOutMS > 0 && popSize > 0
  {
    match g
    case Fixed(c) => c
    case Timed(start, end, w) => start + Schedules.Times(Weight(w, timeTakenMS, timeOutMS, rank, popSize), end - start)
  }

  /** Equal bounds give that bound for every time and rank. */
  lemma ValueWhenStartIsEnd(r: Resolved, timeTakenMS: nat, timeOutMS: nat, rank: nat, popSize: nat)
    requires timeOutMS > 0 && popSize > 0 && r.start == r.end
    ensures Value(OptToGetter(r), timeTakenMS, timeOutMS, rank, popSize) == r.start
  {
  }

  /** At elapsed 0 every behaviour yields the start; CONSTANT yields the end once the time budget is used. */
  lemma ValueEndpoints(r: Resolved, timeOutMS: nat, rank: nat, popSize: nat)
    requires timeOutMS > 0 && popSize > 0
    ensures Value(OptToGetter(r), 0, timeOutMS, rank, popSize) == r.start
    ensures r.whenFit == CONSTANT ==> Value(OptToGetter(r), timeOutMS, timeOutMS, rank, popSize) == r.end
  {
    if r.start != r.end {
      var k := rank as real / popSize as real;
      assert Schedules.Times(0.0, k) == 0.0 * k == 0.0;
      assert Schedules.Times(0.0, 1.0 - k) == 0.0 * (1.0 - k) == 0.0;
      assert Schedules.Times(0.0, r.end - r.start) == 0.0;
      assert Schedules.Times(1.0, r.end - r.start) == r.end - r.start;
    }
  }

  /** Within the time budget and for ranks up to popSize the value stays between start and end. */
  lemma ValueBetween(r: Resolved, timeTakenMS: nat, timeOutMS: nat, rank: nat, popSize: nat)
    requires timeOutMS > 0 && popSize > 0 && timeTakenMS <= timeOutMS && rank <= popSize
    ensures r.start <= r.end ==> r.start <= Value(OptToGetter(r), timeTakenMS, timeOutMS, rank, popSize) <= r.end
    ensures r.end <= r.start ==> r.end <= Value(OptToGetter(r), timeTakenMS, timeOutMS, rank, popSize) <= r.start
  {
    if r.start != r.end {
      WeightInUnit(r.whenFit, timeTakenMS, timeOutMS, rank, popSize);
      Schedules.InterpolationBetween(r.start, r.end, Weight(r.whenFit, timeTakenMS, timeOutMS, rank, popSize));
    }
  }
}
