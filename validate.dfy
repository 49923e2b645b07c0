/**
 * validate.js: the option checks of the TypeScript engine's companion
 * validator. Each check runs in source order and the first failing one is
 * thrown; a check on an option runs only when that option is present.
 * MIN_POPSIZE, MIN_NTRACK and MIN_NELITE come from a defaults module that is
 * not part of this model, so they are parameters.
 */
module Validate {
  import opened Wrappers
  import opened JsNumber
  import opened JsValue
  import Arrays

  /** MIN_POPSIZE, MIN_NTRACK and MIN_NELITE. */
  datatype Mins = Mins(popSize: Num, nTrack: Num, nElite: Num)

  /** The options that must be non-negative numbers (validate.js:59-72). */
  const NUM_POS_KEYS: seq<string> :=
    ["logging.js", "maxNMutations", "minImprove", "minNMutations", "nElite", "nRounds", "nTrack", "popSize", "timeOutMS"]

  /** The options that must be integers (validate.js:74-85). */
  const NUM_INT_KEYS: seq<string> :=
    ["logging.js", "maxNMutations", "minNMutations", "nRounds", "nTrack", "popSize", "timeOutMS"]

  /** `nGenes.constructor.name !== 'Number' || !Number.isInteger(nGenes)`; reading a property of null or undefined throws. */
  function NGenesIntCheck(nGenes: Val): Option<Error>
  {
    match nGenes
    case Undefined => Some(NullProperty("nGenes"))
    case Null => Some(NullProperty("nGenes"))
    case Number(n) => if IsInteger(n) then None else Some(NGenesNotInt)
    case _ => Some(NGenesNotInt)
  }

  /** `DTYPES.has(dtype)` */
  predicate IsDtype(dtype: Val)
  {
    dtype.Str? && dtype.s in Arrays.DTYPES
  }

  /** `dtype.startsWith('u')` */
  predicate IsUnsigned(dtype: Val)
  {
    dtype.Str? && |dtype.s| > 0 && dtype.s[0] == 'u'
  }

  /**
   * The checks on the three arguments (validate.js:13-29), in order; a
   * missing fitness is reported under fName, the name of the argument in
   * the caller's own signature.
   */
  function ArgChecks(fName: string, fitness: Val, nGenes: Val, dtype: Val): seq<Option<Error>>
  {
    [ if fitness == Undefined then Some(MustSet(fName)) else None,
      if dtype == Undefined then Some(MustSet("dtype")) else None,
      if nGenes == Undefined then Some(MustSet("nGenes")) else None,
      NGenesIntCheck(nGenes),
      if Lt(ToNum(nGenes), Finite(1.0)) then Some(NGenesBelowOne) else None,
      if !IsDtype(dtype) then Some(UnknownDtype) else None ]
  }

  /** `nElite > popSize` with both present (validate.js:90-92). */
  function NEliteAbovePopSizeCheck(opts: Opts): Option<Error>
  {
    if Present(opts, "nElite") && Present(opts, "popSize") && Gt(ToNum(Get(opts, "nElite")), ToNum(Get(opts, "popSize")))
    then Some(NEliteAbovePopSize) else None
  }

  /** nElite is an integer or at most 1 (validate.js:94). */
  function NEliteRatioCheck(opts: Opts): Option<Error>
  {
    var v := Get(opts, "nElite");
    if Present(opts, "nElite") && !(IsIntegerVal(v) || Le(ToNum(v), Finite(1.0))) then Some(NEliteNeitherIntNorRatio) else None
  }

  /** An integer nElite is at least MIN_NELITE (validate.js:95). */
  function NEliteMinCheck(opts: Opts, mins: Mins): Option<Error>
  {
    var v := Get(opts, "nElite");
    if Present(opts, "nElite") && !(!IsIntegerVal(v) || Ge(ToNum(v), mins.nElite)) then Some(NEliteBelowMinimum) else None
  }

  /** No negative minRandVal with an unsigned dtype (validate.js:100). */
  function MinRandValSignCheck(opts: Opts, dtype: Val): Option<Error>
  {
    if Present(opts, "minRandVal") && !(!IsUnsigned(dtype) || Ge(ToNum(Get(opts, "minRandVal")), Finite(0.0)))
    then Some(MinRandValNegative) else None
  }

  /** `minRandVal > maxRandVal` with both present (validate.js:101-103). */
  function MinAboveMaxCheck(opts: Opts): Option<Error>
  {
    if Present(opts, "minRandVal") && Present(opts, "maxRandVal")
       && Gt(ToNum(Get(opts, "minRandVal")), ToNum(Get(opts, "maxRandVal")))
    then Some(MinRandValAboveMax) else None
  }

  /** popSize and nTrack against their minimums (validate.js:87-88). */
  function MinimaChecks(opts: Opts, mins: Mins): seq<Option<Error>>
  {
    [AssGTE(opts, "popSize", mins.popSize), AssGTE(opts, "nTrack", mins.nTrack)]
  }

  /** The three nElite checks (validate.js:90-95). */
  function NEliteChecks(opts: Opts, mins: Mins): seq<Option<Error>>
  {
    [NEliteAbovePopSizeCheck(opts), NEliteRatioCheck(opts), NEliteMinCheck(opts, mins)]
  }

  /** minNMutations within [1, nGenes] (validate.js:97-98). */
  function GeneMutChecks(opts: Opts, nGenes: Val): seq<Option<Error>>
  {
    [AssLTE(opts, "minNMutations", ToNum(nGenes)), AssGTE(opts, "minNMutations", Finite(1.0))]
  }

  /** minRandVal against the dtype and maxRandVal (validate.js:100-103). */
  function RandValChecks(opts: Opts, dtype: Val): seq<Option<Error>>
  {
    [MinRandValSignCheck(opts, dtype), MinAboveMaxCheck(opts)]
  }

  /** The checks after the two key loops (validate.js:87-103), in order. */
  function RangeChecks(opts: Opts, nGenes: Val, dtype: Val, mins: Mins): seq<Option<Error>>
  {
    MinimaChecks(opts, mins) + NEliteChecks(opts, mins) + GeneMutChecks(opts, nGenes) + RandValChecks(opts, dtype)
  }

  /** The checks on opts (validate.js:59-103), in order. */
  function OptChecks(opts: Opts, nGenes: Val, dtype: Val, mins: Mins): seq<Option<Error>>
  {
    KeyLoop(opts, NUM_POS_KEYS, Pos) + KeyLoop(opts, NUM_INT_KEYS, Int) + RangeChecks(opts, nGenes, dtype, mins)
  }

  /** validate: None when it returns, Some(e) when it throws e. */
  function ValidateOpts(fitness: Val, nGenes: Val, dtype: Val, opts: Opts, mins: Mins): Option<Error>
  {
    FirstError(ArgChecks("fitness", fitness, nGenes, dtype) + OptChecks(opts, nGenes, dtype, mins))
  }

  // ---------------------------------------------------------------------------
  // What validate accepts, stated as conditions rather than as checks in order

  predicate ArgsOk(fitness: Val, nGenes: Val, dtype: Val)
  {
    fitness != Undefined && IsIntegerVal(nGenes) && !Lt(nGenes.n, Finite(1.0)) && IsDtype(dtype)
  }

  predicate KeysOk(opts: Opts)
  {
    (forall k | k in NUM_POS_KEYS :: KeyOk(opts, k, Pos)) &&
    (forall k | k in NUM_INT_KEYS :: KeyOk(opts, k, Int))
  }

  predicate MinimaOk(opts: Opts, mins: Mins)
  {
    (Present(opts, "popSize") ==> Ge(ToNum(Get(opts, "popSize")), mins.popSize)) &&
    (Present(opts, "nTrack") ==> Ge(ToNum(Get(opts, "nTrack")), mins.nTrack))
  }

  predicate NEliteOk(opts: Opts, mins: Mins)
  {
    var v := Get(opts, "nElite");
    (Present(opts, "nElite") && Present(opts, "popSize") ==> !Gt(ToNum(v), ToNum(Get(opts, "popSize")))) &&
    (Present(opts, "nElite") ==> IsIntegerVal(v) || Le(ToNum(v), Finite(1.0))) &&
    (Present(opts, "nElite") && IsIntegerVal(v) ==> Ge(ToNum(v), mins.nElite))
  }

  predicate GeneMutOk(opts: Opts, nGenes: Val)
  {
    Present(opts, "minNMutations") ==>
      Le(ToNum(Get(opts, "minNMutations")), ToNum(nGenes)) && Ge(ToNum(Get(opts, "minNMutations")), Finite(1.0))
  }

  predicate RandValOk(opts: Opts, dtype: Val)
  {
    (Present(opts, "minRandVal") && IsUnsigned(dtype) ==> Ge(ToNum(Get(opts, "minRandVal")), Finite(0.0))) &&
    (Present(opts, "minRandVal") && Present(opts, "maxRandVal") ==>
       !Gt(ToNum(Get(opts, "minRandVal")), ToNum(Get(opts, "maxRandVal"))))
  }

  predicate RangesOk(opts: Opts, nGenes: Val, dtype: Val, mins: Mins)
  {
    MinimaOk(opts, mins) && NEliteOk(opts, mins) && GeneMutOk(opts, nGenes) && RandValOk(opts, dtype)
  }

  predicate Acceptable(fitness: Val, nGenes: Val, dtype: Val, opts: Opts, mins: Mins)
  {
    ArgsOk(fitness, nGenes, dtype) && KeysOk(opts) && RangesOk(opts, nGenes, dtype, mins)
  }

  lemma ArgChecksPass(fName: string, fitness: Val, nGenes: Val, dtype: Val)
    ensures FirstError(ArgChecks(fName, fitness, nGenes, dtype)).None? <==> ArgsOk(fitness, nGenes, dtype)
    ensures fitness == Undefined ==> FirstError(ArgChecks(fName, fitness, nGenes, dtype)) == Some(MustSet(fName))
  {
    var c := ArgChecks(fName, fitness, nGenes, dtype);
    if fitness == Undefined {
      assert c[0].Some?;
    } else if !IsIntegerVal(nGenes) {
      assert c[3].Some?;
    } else if Lt(nGenes.n, Finite(1.0)) {
      assert c[4].Some?;
    } else if !IsDtype(dtype) {
      assert c[5].Some?;
    } else {
      assert c[0].None? && c[1].None? && c[2].None? && c[3].None? && c[4].None? && c[5].None?;
    }
  }

  lemma RangeChecksPass(opts: Opts, nGenes: Val, dtype: Val, mins: Mins)
    ensures FirstError(RangeChecks(opts, nGenes, dtype, mins)).None? <==> RangesOk(opts, nGenes, dtype, mins)
  {
    var m := MinimaChecks(opts, mins);
    var n := NEliteChecks(opts, mins);
    var g := GeneMutChecks(opts, nGenes);
    var r := RandValChecks(opts, dtype);
    FirstErrorConcat(m + n + g, r);
    FirstErrorConcat(m + n, g);
    FirstErrorConcat(m, n);
    MinimaChecksPass(opts, mins);
    NEliteChecksPass(opts, mins);
    GeneMutChecksPass(opts, nGenes);
    RandValChecksPass(opts, dtype);
  }

  lemma GeneMutChecksPass(opts: Opts, nGenes: Val)
    ensures FirstError(GeneMutChecks(opts, nGenes)).None? <==> GeneMutOk(opts, nGenes)
  {
    var g := GeneMutChecks(opts, nGenes);
    assert FirstError(g).None? <==> g[0].None? && g[1].None?;
  }

  lemma MinimaChecksPass(opts: Opts, mins: Mins)
    ensures FirstError(MinimaChecks(opts, mins)).None? <==> MinimaOk(opts, mins)
  {
    var m := MinimaChecks(opts, mins);
    assert FirstError(m).None? <==> m[0].None? && m[1].None?;
  }

  lemma NEliteChecksPass(opts: Opts, mins: Mins)
    ensures FirstError(NEliteChecks(opts, mins)).None? <==> NEliteOk(opts, mins)
  {
    var n := NEliteChecks(opts, mins);
    assert FirstError(n).None? <==> n[0].None? && n[1].None? && n[2].None?;
  }

  lemma RandValChecksPass(opts: Opts, dtype: Val)
    ensures FirstError(RandValChecks(opts, dtype)).None? <==> RandValOk(opts, dtype)
  {
    var r := RandValChecks(opts, dtype);
    assert FirstError(r).None? <==> r[0].None? && r[1].None?;
  }

  /** validate returns exactly when the arguments and options are acceptable. */
  lemma ValidateAccepts(fitness: Val, nGenes: Val, dtype: Val, opts: Opts, mins: Mins)
    ensures ValidateOpts(fitness, nGenes, dtype, opts, mins).None? <==> Acceptable(fitness, nGenes, dtype, opts, mins)
  {
    var a := ArgChecks("fitness", fitness, nGenes, dtype);
    var l1 := KeyLoop(opts, NUM_POS_KEYS, Pos);
    var l2 := KeyLoop(opts, NUM_INT_KEYS, Int);
    var rest := RangeChecks(opts, nGenes, dtype, mins);
    FirstErrorConcat(a, l1 + l2 + rest);
    FirstErrorConcat(l1 + l2, rest);
    FirstErrorConcat(l1, l2);
    ArgChecksPass("fitness", fitness, nGenes, dtype);
    KeyLoopPasses(opts, NUM_POS_KEYS, Pos);
    KeyLoopPasses(opts, NUM_INT_KEYS, Int);
    RangeChecksPass(opts, nGenes, dtype, mins);
  }

  /** Does an error blame only options that are present in opts? */
  predicate BlamesPresent(opts: Opts, e: Error)
  {
    match e
    case NEliteAbovePopSize => Present(opts, "nElite") && Present(opts, "popSize")
    case MinRandValAboveMax => Present(opts, "minRandVal") && Present(opts, "maxRandVal")
    case MustSet(_) => true
    case NGenesNotInt => true
    case NGenesBelowOne => true
    case UnknownDtype => true
    case FitnessNotFunction => true
    case NullProperty(k) => k == "nGenes" || k == "f" || Present(opts, k)
    case UnrecognizedOptions(names) => forall k | k in names :: k in opts
    case MultimodalModuleMissing => Present(opts, "isMultimodal")
    case _ => Present(opts, KeyOf(e))
  }

  predicate AllBlamePresent(opts: Opts, c: seq<Option<Error>>)
  {
    forall i | 0 <= i < |c| :: c[i].Some? ==> BlamesPresent(opts, c[i].value)
  }

  lemma AllBlamePresentConcat(opts: Opts, a: seq<Option<Error>>, b: seq<Option<Error>>)
    requires AllBlamePresent(opts, a) && AllBlamePresent(opts, b)
    ensures AllBlamePresent(opts, a + b)
  {
    forall i | 0 <= i < |a + b| && (a + b)[i].Some? ensures BlamesPresent(opts, (a + b)[i].value) {
      if i >= |a| {
        assert (a + b)[i] == b[i - |a|];
      }
    }
  }

  lemma MinimaChecksBlamePresent(opts: Opts, mins: Mins)
    ensures AllBlamePresent(opts, MinimaChecks(opts, mins))
  {
    var c := MinimaChecks(opts, mins);
    assert c[0].Some? ==> BlamesPresent(opts, c[0].value);
    assert c[1].Some? ==> BlamesPresent(opts, c[1].value);
  }

  lemma NEliteChecksBlamePresent(opts: Opts, mins: Mins)
    ensures AllBlamePresent(opts, NEliteChecks(opts, mins))
  {
    var c := NEliteChecks(opts, mins);
    assert c[0].Some? ==> BlamesPresent(opts, c[0].value);
    assert c[1].Some? ==> BlamesPresent(opts, c[1].value);
    assert c[2].Some? ==> BlamesPresent(opts, c[2].value);
  }

  lemma RandValChecksBlamePresent(opts: Opts, dtype: Val)
    ensures AllBlamePresent(opts, RandValChecks(opts, dtype))
  {
    var c := RandValChecks(opts, dtype);
    assert c[0].Some? ==> BlamesPresent(opts, c[0].value);
    assert c[1].Some? ==> BlamesPresent(opts, c[1].value);
  }

  lemma RangeChecksBlamePresent(opts: Opts, nGenes: Val, dtype: Val, mins: Mins)
    ensures AllBlamePresent(opts, RangeChecks(opts, nGenes, dtype, mins))
  {
    var m := MinimaChecks(opts, mins);
    var n := NEliteChecks(opts, mins);
    var g := GeneMutChecks(opts, nGenes);
    var r := RandValChecks(opts, dtype);
    MinimaChecksBlamePresent(opts, mins);
    NEliteChecksBlamePresent(opts, mins);
    assert AllBlamePresent(opts, g);
    RandValChecksBlamePresent(opts, dtype);
    AllBlamePresentConcat(opts, m, n);
    AllBlamePresentConcat(opts, m + n, g);
    AllBlamePresentConcat(opts, m + n + g, r);
  }

  lemma ArgChecksBlameNoOption(fName: string, fitness: Val, nGenes: Val, dtype: Val, opts: Opts)
    ensures AllBlamePresent(opts, ArgChecks(fName, fitness, nGenes, dtype))
  {
  }

  lemma KeyLoopBlamesPresent(opts: Opts, keys: seq<string>, second: Second)
    ensures AllBlamePresent(opts, KeyLoop(opts, keys, second))
  {
    var l := KeyLoop(opts, keys, second);
    KeyLoopBlamesPresentKey(opts, keys, second);
    forall i | 0 <= i < |l| && l[i].Some? ensures BlamesPresent(opts, l[i].value) {
      assert Present(opts, KeyOf(l[i].value));
    }
  }

  /** Every error about an option is about one that was supplied: omitted options never throw. */
  lemma ErrorsBlamePresentOptions(fitness: Val, nGenes: Val, dtype: Val, opts: Opts, mins: Mins)
    requires ValidateOpts(fitness, nGenes, dtype, opts, mins).Some?
    ensures BlamesPresent(opts, ValidateOpts(fitness, nGenes, dtype, opts, mins).value)
  {
    var a := ArgChecks("fitness", fitness, nGenes, dtype);
    var l1 := KeyLoop(opts, NUM_POS_KEYS, Pos);
    var l2 := KeyLoop(opts, NUM_INT_KEYS, Int);
    var rest := RangeChecks(opts, nGenes, dtype, mins);
    ArgChecksBlameNoOption("fitness", fitness, nGenes, dtype, opts);
    KeyLoopBlamesPresent(opts, NUM_POS_KEYS, Pos);
    KeyLoopBlamesPresent(opts, NUM_INT_KEYS, Int);
    RangeChecksBlamePresent(opts, nGenes, dtype, mins);
    AllBlamePresentConcat(opts, l1, l2);
    AllBlamePresentConcat(opts, l1 + l2, rest);
    AllBlamePresentConcat(opts, a, l1 + l2 + rest);
    var c := a + (l1 + l2 + rest);
    assert c == ArgChecks("fitness", fitness, nGenes, dtype) + OptChecks(opts, nGenes, dtype, mins);
  }

  /** With no option set, validate throws only for the three arguments. */
  lemma EmptyOptionsAccepted(fitness: Val, nGenes: Val, dtype: Val, opts: Opts, mins: Mins)
    requires forall k :: !Present(opts, k)
    ensures ValidateOpts(fitness, nGenes, dtype, opts, mins).None? <==> ArgsOk(fitness, nGenes, dtype)
  {
    ValidateAccepts(fitness, nGenes, dtype, opts, mins);
  }

  /** The rejections the source makes for supplied options. */
  lemma ValidateRejects(fitness: Val, nGenes: Val, dtype: Val, opts: Opts, mins: Mins, k: string)
    ensures k in NUM_POS_KEYS && Present(opts, k) && Lt(ToNum(Get(opts, k)), Finite(0.0))
            ==> ValidateOpts(fitness, nGenes, dtype, opts, mins).Some?
    ensures k in NUM_INT_KEYS && Present(opts, k) && !IsIntegerVal(Get(opts, k))
            ==> ValidateOpts(fitness, nGenes, dtype, opts, mins).Some?
    ensures Present(opts, "popSize") && Lt(ToNum(Get(opts, "popSize")), mins.popSize)
            ==> ValidateOpts(fitness, nGenes, dtype, opts, mins).Some?
    ensures Present(opts, "nTrack") && Lt(ToNum(Get(opts, "nTrack")), mins.nTrack)
            ==> ValidateOpts(fitness, nGenes, dtype, opts, mins).Some?
    ensures Present(opts, "nElite") && Present(opts, "popSize") && Gt(ToNum(Get(opts, "nElite")), ToNum(Get(opts, "popSize")))
            ==> ValidateOpts(fitness, nGenes, dtype, opts, mins).Some?
    ensures Present(opts, "nElite") && !IsIntegerVal(Get(opts, "nElite")) && Gt(ToNum(Get(opts, "nElite")), Finite(1.0))
            ==> ValidateOpts(fitness, nGenes, dtype, opts, mins).Some?
    ensures Present(opts, "nElite") && IsIntegerVal(Get(opts, "nElite")) && Lt(ToNum(Get(opts, "nElite")), mins.nElite)
            ==> ValidateOpts(fitness, nGenes, dtype, opts, mins).Some?
    ensures Present(opts, "minNMutations") && (Lt(ToNum(Get(opts, "minNMutations")), Finite(1.0)) || Gt(ToNum(Get(opts, "minNMutations")), ToNum(nGenes)))
            ==> ValidateOpts(fitness, nGenes, dtype, opts, mins).Some?
    ensures Present(opts, "minRandVal") && IsUnsigned(dtype) && Lt(ToNum(Get(opts, "minRandVal")), Finite(0.0))
            ==> ValidateOpts(fitness, nGenes, dtype, opts, mins).Some?
    ensures Present(opts, "minRandVal") && Present(opts, "maxRandVal") && Gt(ToNum(Get(opts, "minRandVal")), ToNum(Get(opts, "maxRandVal")))
            ==> ValidateOpts(fitness, nGenes, dtype, opts, mins).Some?
  {
    ValidateAccepts(fitness, nGenes, dtype, opts, mins);
  }

  /** The options validate looks at; every other key is ignored. */
  predicate Checked(k: string)
  {
    k in NUM_POS_KEYS || k in NUM_INT_KEYS || k == "maxRandVal" || k == "minRandVal"
  }

  lemma {:induction false} KeyLoopReadsOnlyKeys(o1: Opts, o2: Opts, keys: seq<string>, second: Second)
    requires forall k | k in keys :: Get(o1, k) == Get(o2, k)
    ensures KeyLoop(o1, keys, second) == KeyLoop(o2, keys, second)
  {
    if keys != [] {
      KeyLoopReadsOnlyKeys(o1, o2, keys[1..], second);
    }
  }

  /**
   * Setting an option validate does not look at (an unknown key, or pMutate
   * and the other probabilities, whose checks are commented out) never
   * changes its outcome.
   */
  lemma UncheckedKeyIgnored(fitness: Val, nGenes: Val, dtype: Val, opts: Opts, mins: Mins, k: string, v: Val)
    requires !Checked(k)
    ensures ValidateOpts(fitness, nGenes, dtype, opts[k := v], mins) == ValidateOpts(fitness, nGenes, dtype, opts, mins)
  {
    var o2 := opts[k := v];
    assert forall j | j in NUM_POS_KEYS || j in NUM_INT_KEYS :: j != k;
    KeyLoopReadsOnlyKeys(o2, opts, NUM_POS_KEYS, Pos);
    KeyLoopReadsOnlyKeys(o2, opts, NUM_INT_KEYS, Int);
    assert NUM_POS_KEYS[7] == "popSize" && NUM_POS_KEYS[6] == "nTrack" && NUM_POS_KEYS[4] == "nElite";
    assert NUM_POS_KEYS[3] == "minNMutations";
    RangeChecksReadOnly(o2, opts, nGenes, dtype, mins);
  }

  /** The checks after the key loops read only popSize, nTrack, nElite, minNMutations, minRandVal and maxRandVal. */
  lemma RangeChecksReadOnly(o1: Opts, o2: Opts, nGenes: Val, dtype: Val, mins: Mins)
    requires Get(o1, "popSize") == Get(o2, "popSize") && Get(o1, "nTrack") == Get(o2, "nTrack")
    requires Get(o1, "nElite") == Get(o2, "nElite") && Get(o1, "minNMutations") == Get(o2, "minNMutations")
    requires Get(o1, "minRandVal") == Get(o2, "minRandVal") && Get(o1, "maxRandVal") == Get(o2, "maxRandVal")
    ensures RangeChecks(o1, nGenes, dtype, mins) == RangeChecks(o2, nGenes, dtype, mins)
  {
    NEliteChecksReadOnly(o1, o2, mins);
    RandValChecksReadOnly(o1, o2, dtype);
    MinimaChecksReadOnly(o1, o2, mins);
    GeneMutChecksReadOnly(o1, o2, nGenes);
  }

  lemma MinimaChecksReadOnly(o1: Opts, o2: Opts, mins: Mins)
    requires Get(o1, "popSize") == Get(o2, "popSize") && Get(o1, "nTrack") == Get(o2, "nTrack")
    ensures MinimaChecks(o1, mins) == MinimaChecks(o2, mins)
  {
  }

  lemma GeneMutChecksReadOnly(o1: Opts, o2: Opts, nGenes: Val)
    requires Get(o1, "minNMutations") == Get(o2, "minNMutations")
    ensures GeneMutChecks(o1, nGenes) == GeneMutChecks(o2, nGenes)
  {
  }

  lemma NEliteChecksReadOnly(o1: Opts, o2: Opts, mins: Mins)
    requires Get(o1, "popSize") == Get(o2, "popSize") && Get(o1, "nElite") == Get(o2, "nElite")
    ensures NEliteChecks(o1, mins) == NEliteChecks(o2, mins)
  {
    assert NEliteAbovePopSizeCheck(o1) == NEliteAbovePopSizeCheck(o2);
    assert NEliteRatioCheck(o1) == NEliteRatioCheck(o2);
    assert NEliteMinCheck(o1, mins) == NEliteMinCheck(o2, mins);
  }

  lemma RandValChecksReadOnly(o1: Opts, o2: Opts, dtype: Val)
    requires Get(o1, "minRandVal") == Get(o2, "minRandVal") && Get(o1, "maxRandVal") == Get(o2, "maxRandVal")
    ensures RandValChecks(o1, dtype) == RandValChecks(o2, dtype)
  {
    assert MinRandValSignCheck(o1, dtype) == MinRandValSignCheck(o2, dtype);
    assert MinAboveMaxCheck(o1) == MinAboveMaxCheck(o2);
  }

  /**
   * The probability checks are commented out: any pMutate, pElite or
   * unknown key added to acceptable options leaves them acceptable.
   */
  lemma ProbabilitiesUnchecked(fitness: Val, nGenes: Val, dtype: Val, opts: Opts, mins: Mins, k: string, v: Val)
    requires Acceptable(fitness, nGenes, dtype, opts, mins)
    requires k == "pMutate" || k == "pElite" || !Checked(k)
    ensures ValidateOpts(fitness, nGenes, dtype, opts[k := v], mins).None?
  {
    ValidateAccepts(fitness, nGenes, dtype, opts, mins);
    UncheckedKeyIgnored(fitness, nGenes, dtype, opts, mins, k, v);
  }
}
