/**
 * The values an options object can hold, as the validation code sees them,
 * and the errors the validation code throws. Options objects are maps from
 * key to value; a key that is absent reads as `undefined`.
 */
module JsValue {
  import opened Wrappers
  import opened JsNumber

  datatype Val =
    | Undefined
    | Null
    | Bool(b: bool)
    | Number(n: Num)
    | Str(s: string)
    | Func(name: string)  // a function value; `name` says which one
    | Other               // arrays and other objects

  type Opts = map<string, Val>

  /** `opts[k]` */
  function Get(opts: Opts, k: string): Val
  {
    if k in opts then opts[k] else Undefined
  }

  /** `opts[k] !== undefined` */
  predicate Present(opts: Opts, k: string)
  {
    Get(opts, k) != Undefined
  }

  /**
   * Conversion to a number in a comparison or in arithmetic. Strings and
   * objects are all taken as NaN here (see the README for what that leaves out).
   */
  function ToNum(v: Val): Num
  {
    match v
    case Number(n) => n
    case Null => Finite(0.0)
    case Bool(b) => if b then Finite(1.0) else Finite(0.0)
    case _ => NaN
  }

  /** Truthiness in an `if` or `&&`. */
  predicate Truthy(v: Val)
  {
    match v
    case Undefined => false
    case Null => false
    case Bool(b) => b
    case Number(n) => n != NaN && n != Finite(0.0)
    case Str(s) => s != ""
    case _ => true
  }

  /** `Number.isInteger(v)` */
  predicate IsIntegerVal(v: Val)
  {
    v.Number? && IsInteger(v.n)
  }

  /** What the validation code throws. */
  datatype Error =
    | MustSet(name: string)            // 'you MUST set …'
    | NullProperty(name: string)       // TypeError: reading `constructor` of null
    | NGenesNotInt
    | NGenesBelowOne
    | UnknownDtype
    | FitnessNotFunction
    | NotNumber(name: string)
    | NotPositive(name: string)
    | NotInteger(name: string)
    | NotProbability(name: string)
    | BelowMinimum(name: string)
    | AboveMaximum(name: string)
    | NEliteAbovePopSize
    | NEliteNeitherIntNorRatio
    | NEliteBelowMinimum
    | MinRandValNegative
    | MinRandValAboveMax
    | UnrecognizedOptions(names: set<string>)
    | MultimodalModuleMissing          // require('./mulitmodal') cannot be resolved

  /** The option an error is about, when it is about exactly one. */
  function KeyOf(e: Error): (k: string)
  {
    match e
    case NullProperty(k) => k
    case NotNumber(k) => k
    case NotPositive(k) => k
    case NotInteger(k) => k
    case NotProbability(k) => k
    case BelowMinimum(k) => k
    case AboveMaximum(k) => k
    case NEliteNeitherIntNorRatio => "nElite"
    case NEliteBelowMinimum => "nElite"
    case MinRandValNegative => "minRandVal"
    case _ => ""
  }

  /** The first error of a list of checks run in order; None when all pass. */
  function FirstError(checks: seq<Option<Error>>): (r: Option<Error>)
    ensures r.None? <==> forall i | 0 <= i < |checks| :: checks[i].None?
    ensures r.Some? ==> exists i | 0 <= i < |checks| :: checks[i] == r
  {
    if checks == [] then None
    else if checks[0].Some? then checks[0]
    else FirstError(checks[1..])
  }

  // ---------------------------------------------------------------------------
  // The `assert(v, p, msg)` helper: a check runs only when `opts[v] !== undefined`.

  /** `assNum`: the value's constructor must be Number; `null.constructor` throws. */
  function AssNum(opts: Opts, k: string): (r: Option<Error>)
    ensures r.Some? ==> Present(opts, k) && KeyOf(r.value) == k
    ensures r.None? <==> !Present(opts, k) || Get(opts, k).Number?
  {
    match Get(opts, k)
    case Undefined => None
    case Number(_) => None
    case Null => Some(NullProperty(k))
    case _ => Some(NotNumber(k))
  }

  /** `assPos`: `val >= 0`. */
  function AssPos(opts: Opts, k: string): (r: Option<Error>)
    ensures r.Some? ==> Present(opts, k) && KeyOf(r.value) == k
    ensures r.None? <==> !Present(opts, k) || Ge(ToNum(Get(opts, k)), Finite(0.0))
  {
    if Present(opts, k) && !Ge(ToNum(Get(opts, k)), Finite(0.0)) then Some(NotPositive(k)) else None
  }

  /** `assInt`: `Number.isInteger(val)`. */
  function AssInt(opts: Opts, k: string): (r: Option<Error>)
    ensures r.Some? ==> Present(opts, k) && KeyOf(r.value) == k
    ensures r.None? <==> !Present(opts, k) || IsIntegerVal(Get(opts, k))
  {
    if Present(opts, k) && !IsIntegerVal(Get(opts, k)) then Some(NotInteger(k)) else None
  }

  /** `assProb`: `p >= 0 && p <= 1`. */
  function AssProb(opts: Opts, k: string): (r: Option<Error>)
    ensures r.Some? ==> Present(opts, k) && KeyOf(r.value) == k
    ensures r.None? <==> !Present(opts, k) || (Ge(ToNum(Get(opts, k)), Finite(0.0)) && Le(ToNum(Get(opts, k)), Finite(1.0)))
  {
    var p := ToNum(Get(opts, k));
    if Present(opts, k) && !(Ge(p, Finite(0.0)) && Le(p, Finite(1.0))) then Some(NotProbability(k)) else None
  }

  /** `assGTE(k, n)`: `val >= n`. */
  function AssGTE(opts: Opts, k: string, n: Num): (r: Option<Error>)
    ensures r.Some? ==> Present(opts, k) && KeyOf(r.value) == k
    ensures r.None? <==> !Present(opts, k) || Ge(ToNum(Get(opts, k)), n)
  {
    if Present(opts, k) && !Ge(ToNum(Get(opts, k)), n) then Some(BelowMinimum(k)) else None
  }

  /** `assLTE(k, n)`: `val <= n`. */
  function AssLTE(opts: Opts, k: string, n: Num): (r: Option<Error>)
    ensures r.Some? ==> Present(opts, k) && KeyOf(r.value) == k
    ensures r.None? <==> !Present(opts, k) || Le(ToNum(Get(opts, k)), n)
  {
    if Present(opts, k) && !Le(ToNum(Get(opts, k)), n) then Some(AboveMaximum(k)) else None
  }

  /** `for (vName of keys) { assNum(vName); second(vName); }`, with `second` assPos, assInt or assProb. */
  datatype Second = Pos | Int | Prob

  function SecondCheck(opts: Opts, k: string, second: Second): Option<Error>
  {
    match second
    case Pos => AssPos(opts, k)
    case Int => AssInt(opts, k)
    case Prob => AssProb(opts, k)
  }

  function KeyLoop(opts: Opts, keys: seq<string>, second: Second): (r: seq<Option<Error>>)
    ensures |r| == 2 * |keys|
  {
    if keys == [] then []
    else [AssNum(opts, keys[0]), SecondCheck(opts, keys[0], second)] + KeyLoop(opts, keys[1..], second)
  }

  /** What a key loop accepts, stated key by key. */
  predicate KeyOk(opts: Opts, k: string, second: Second)
  {
    !Present(opts, k) ||
    (Get(opts, k).Number? &&
     match second
     case Pos => Ge(Get(opts, k).n, Finite(0.0))
     case Int => IsInteger(Get(opts, k).n)
     case Prob => Ge(Get(opts, k).n, Finite(0.0)) && Le(Get(opts, k).n, Finite(1.0)))
  }

  /** A key loop passes exactly when every key it visits is absent or acceptable. */
  lemma {:induction false} KeyLoopPasses(opts: Opts, keys: seq<string>, second: Second)
    ensures FirstError(KeyLoop(opts, keys, second)).None? <==> forall k | k in keys :: KeyOk(opts, k, second)
  {
    if keys != [] {
      KeyLoopPasses(opts, keys[1..], second);
      var r := KeyLoop(opts, keys, second);
      assert r == [AssNum(opts, keys[0]), SecondCheck(opts, keys[0], second)] + KeyLoop(opts, keys[1..], second);
      assert forall k | k in keys :: k == keys[0] || k in keys[1..];
      if FirstError(r).None? {
        assert r[0].None? && r[1].None?;
        assert forall i | 0 <= i < |KeyLoop(opts, keys[1..], second)| :: KeyLoop(opts, keys[1..], second)[i] == r[i + 2];
      } else if r[0].None? && r[1].None? {
        assert r[2..] == KeyLoop(opts, keys[1..], second);
        assert FirstError(r) == FirstError(r[1..]) == FirstError(r[2..]);
      } else {
        var k := keys[0];
        if Present(opts, k) && Get(opts, k).Number? {
          assert ToNum(Get(opts, k)) == Get(opts, k).n;
        }
        assert !KeyOk(opts, k, second);
      }
    }
  }

  /** The errors of the per-option checks. */
  predicate IsOptionError(e: Error)
  {
    e.NullProperty? || e.NotNumber? || e.NotPositive? || e.NotInteger? || e.NotProbability?
  }

  /** Every error a key loop can raise is a per-option error naming one of its keys, and that key is present in opts. */
  lemma {:induction false} KeyLoopBlamesPresentKey(opts: Opts, keys: seq<string>, second: Second)
    ensures forall i | 0 <= i < |KeyLoop(opts, keys, second)| :: KeyLoop(opts, keys, second)[i].Some? ==>
      IsOptionError(KeyLoop(opts, keys, second)[i].value) &&
      KeyOf(KeyLoop(opts, keys, second)[i].value) in keys && Present(opts, KeyOf(KeyLoop(opts, keys, second)[i].value))
  {
    if keys != [] {
      KeyLoopBlamesPresentKey(opts, keys[1..], second);
      var r := KeyLoop(opts, keys, second);
      var tail := KeyLoop(opts, keys[1..], second);
      assert r == [AssNum(opts, keys[0]), SecondCheck(opts, keys[0], second)] + tail;
      forall i | 0 <= i < |r| && r[i].Some?
        ensures IsOptionError(r[i].value) && KeyOf(r[i].value) in keys && Present(opts, KeyOf(r[i].value))
      {
        if i >= 2 {
          assert r[i] == tail[i - 2];
        }
      }
    }
  }

  /** The checks of two lists run one after the other pass exactly when both lists pass. */
  lemma FirstErrorConcat(a: seq<Option<Error>>, b: seq<Option<Error>>)
    ensures FirstError(a + b).None? <==> FirstError(a).None? && FirstError(b).None?
  {
    var c := a + b;
    if FirstError(c).None? {
      forall i | 0 <= i < |a| ensures a[i].None? { assert a[i] == c[i]; }
      forall i | 0 <= i < |b| ensures b[i].None? { assert b[i] == c[|a| + i]; }
    }
  }
}
