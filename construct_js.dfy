/**
 * The GeneticAlgorithm constructor of index.js (index.js:89-255): the checks
 * on the arguments and on opts, the merge of opts over DEFAULTS and the
 * derived defaults. Checks run in source order and the first failing one is
 * thrown. The successive field overwrites after the merge are modelled as
 * successive updates of the merged option map.
 */
module ConstructJs {
  import opened Wrappers
  import opened JsNumber
  import opened JsValue
  import Arrays
  import Validate

  /** The options that must be non-negative numbers (index.js:143-157). */
  const NUM_POS_KEYS: seq<string> :=
    ["maxNGeneMut", "minImp", "minNGeneMut", "nElite", "nRounds", "nTrack", "pElite", "pMutate", "popSize", "timeOutMS"]

  /** The options that must be integers (index.js:159-169). */
  const NUM_INT_KEYS: seq<string> :=
    ["maxNGeneMut", "minNGeneMut", "nRounds", "nTrack", "popSize", "timeOutMS"]

  /** The options that must be probabilities (index.js:174-177). */
  const PROB_KEYS: seq<string> := ["pMutate", "pElite"]

  /**
   * `DEFAULTS[k]` (index.js:57-80) for an own key of DEFAULTS; undefined for
   * any other key. The strategy modules are function values named after
   * their module.
   */
  function DefaultOf(k: string): Val
  {
    match k
    case "crossover" => Func("crossover")
    case "doMutate" => Func("doMutate")
    case "emitFittest" => Bool(true)
    case "initPop" => Func("initPop")
    case "isFinished" => Func("isFinished")
    case "isMultimodal" => Bool(false)
    case "maxNGeneMut" => Null
    case "maxRandVal" => Null
    case "minImp" => Number(Finite(0.000001))
    case "minNGeneMut" => Number(Finite(1.0))
    case "minRandVal" => Null
    case "multimodal" => Func("multimodal")
    case "mutate" => Func("mutate")
    case "nElite" => Number(Finite(0.2))
    case "nRounds" => Number(Finite(1000000.0))
    case "nTrack" => Number(Finite(100.0))
    case "pElite" => Null
    case "pMutate" => Null
    case "popSize" => Number(Finite(300.0))
    case "score" => Null
    case "timeOutMS" => Number(Finite(30000.0))
    case "validateFitness" => Bool(true)
    case _ => Undefined
  }

  /**
   * A field of the constructed object: the value `Object.assign` copied
   * from opts or a later overwrite when there is one (even undefined), the
   * default otherwise (index.js:203-209).
   */
  function Field(m: Opts, k: string): Val
  {
    if k in m then m[k] else DefaultOf(k)
  }

  /** The names every object inherits from Object.prototype: `DEFAULTS[k]` is defined for them too. */
  const OBJECT_PROTOTYPE_KEYS: set<string> := {
    "constructor", "hasOwnProperty", "isPrototypeOf", "propertyIsEnumerable", "toLocaleString",
    "toString", "valueOf", "__defineGetter__", "__defineSetter__", "__lookupGetter__",
    "__lookupSetter__", "__proto__"}

  /** `DEFAULTS[k] !== undefined` */
  predicate Recognised(k: string)
  {
    DefaultOf(k) != Undefined || k in OBJECT_PROTOTYPE_KEYS
  }

  /** The keys of opts the loop at index.js:196-201 would throw for. */
  function UnknownKeys(opts: Opts): (r: set<string>)
    ensures forall k :: k in r <==> k in opts && !Recognised(k)
  {
    set k | k in opts.Keys && !Recognised(k)
  }

  /** `f.constructor.name !== 'Function'` (index.js:111); reading a property of null throws. */
  function FunctionCheck(f: Val): Option<Error>
  {
    match f
    case Func(_) => None
    case Undefined => Some(NullProperty("f"))
    case Null => Some(NullProperty("f"))
    case _ => Some(FitnessNotFunction)
  }

  /** The checks on f, dtype and nGenes (index.js:93-113), in order; a missing f is reported under its own name, f. */
  function ArgChecks(f: Val, nGenes: Val, dtype: Val): seq<Option<Error>>
  {
    Validate.ArgChecks("f", f, nGenes, dtype) + [FunctionCheck(f)]
  }

  /** minNGeneMut within [1, nGenes] (index.js:187-188). */
  function GeneMutChecks(opts: Opts, nGenes: Val): seq<Option<Error>>
  {
    [AssLTE(opts, "minNGeneMut", ToNum(nGenes)), AssGTE(opts, "minNGeneMut", Finite(1.0))]
  }

  /** The unknown-key loop (index.js:196-201); a map has no key order, so the error names every unknown key. */
  function UnknownKeyCheck(opts: Opts): Option<Error>
  {
    if UnknownKeys(opts) == {} then None else Some(UnrecognizedOptions(UnknownKeys(opts)))
  }

  /** The checks on single options (index.js:143-177), in order. */
  function NumberChecks(opts: Opts, mins: Validate.Mins): seq<Option<Error>>
  {
    KeyLoop(opts, NUM_POS_KEYS, Pos) + KeyLoop(opts, NUM_INT_KEYS, Second.Int) + Validate.MinimaChecks(opts, mins)
    + KeyLoop(opts, PROB_KEYS, Prob)
  }

  /** The checks relating options to each other, to the arguments and to DEFAULTS (index.js:180-201), in order. */
  function RelationChecks(opts: Opts, nGenes: Val, dtype: Val, mins: Validate.Mins): seq<Option<Error>>
  {
    Validate.NEliteChecks(opts, mins) + GeneMutChecks(opts, nGenes) + Validate.RandValChecks(opts, dtype)
    + [UnknownKeyCheck(opts)]
  }

  /** The checks on opts (index.js:143-201), in order. */
  function OptChecks(opts: Opts, nGenes: Val, dtype: Val, mins: Validate.Mins): seq<Option<Error>>
  {
    NumberChecks(opts, mins) + RelationChecks(opts, nGenes, dtype, mins)
  }

  function Checks(f: Val, nGenes: Val, dtype: Val, opts: Opts, mins: Validate.Mins): seq<Option<Error>>
  {
    ArgChecks(f, nGenes, dtype) + OptChecks(opts, nGenes, dtype, mins)
  }

  // ---------------------------------------------------------------------------
  // Derived defaults (index.js:203-254)

  function Pow2(n: nat): (r: nat)
    ensures r >= 1
  {
    if n == 0 then 1 else 2 * Pow2(n - 1)
  }

  /** floor(log2(n)) */
  function ILog2(n: nat): nat
    requires n >= 1
  {
    if n == 1 then 0 else 1 + ILog2(n / 2)
  }

  /** ILog2 is the exponent of the largest power of two not above n. */
  lemma {:induction false} ILog2Bounds(n: nat)
    requires n >= 1
    ensures Pow2(ILog2(n)) <= n < Pow2(ILog2(n) + 1)
  {
    if n > 1 {
      ILog2Bounds(n / 2);
    }
  }

  /**
   * `Math.floor(Math.log2(n) / 2)` for an integer n >= 1. With k = floor(log2 n),
   * log2 n / 2 lies in [k/2, (k+1)/2), so its floor is k div 2.
   */
  function HalfLog2(n: nat): nat
    requires n >= 1
  {
    ILog2(n) / 2
  }

  /** `(3.4 * (10 ** 38) - 1) / 1E4` and `(1.2 * (10 ** -38)) / 1E4`, as exact reals. */
  const FLOAT_MAX_RAND_VAL: real := (340000000000000000000000000000000000000.0 - 1.0) / 10000.0
  const FLOAT_MIN_RAND_VAL: real := 1.2 / 100000000000000000000000000000000000000.0 / 10000.0

  predicate IsFloatKind(k: Arrays.Kind) { k == Arrays.F64 || k == Arrays.F32 }
  predicate IsIntKind(k: Arrays.Kind) { k == Arrays.I32 || k == Arrays.I16 || k == Arrays.I8 }
  predicate IsUintKind(k: Arrays.Kind) { k == Arrays.U32 || k == Arrays.U16 || k == Arrays.U8 }

  /** The default upper bound for a dtype (index.js:237-245). */
  function DefaultMaxRandVal(k: Arrays.Kind): real
  {
    if IsFloatKind(k) then FLOAT_MAX_RAND_VAL
    else if IsIntKind(k) then (Pow2(Arrays.Bits(k) - 1) - 1) as real
    else (Pow2(Arrays.Bits(k)) - 1) as real
  }

  /** The default lower bound for a dtype (index.js:246-254). */
  function DefaultMinRandVal(k: Arrays.Kind): real
  {
    if IsFloatKind(k) then FLOAT_MIN_RAND_VAL
    else if IsIntKind(k) then (1 - Pow2(Arrays.Bits(k) - 1) as int) as real
    else 0.0
  }

  /**
   * The constructed object. After `Object.assign(this, DEFAULTS, opts)` each
   * field reads `Field(opts, k)`; seven fields are then overwritten
   * (index.js:211-254) and are held apart here, one per overwrite.
   */
  datatype GA = GA(
    f: Val, nGenes: nat, kind: Arrays.Kind, nBits: nat, opts: Opts,
    multimodal: Val, score: Val, nElite: Val, pElite: Val,
    maxNGeneMut: Val, maxRandVal: Val, minRandVal: Val)

  /** The fields the constructor overwrites after the merge. */
  const RESOLVED_KEYS: set<string> := {"multimodal", "score", "nElite", "pElite", "maxNGeneMut", "maxRandVal", "minRandVal"}

  /** `this[k]` on a constructed object. */
  function FieldOf(ga: GA, k: string): Val
  {
    match k
    case "multimodal" => ga.multimodal
    case "score" => ga.score
    case "nElite" => ga.nElite
    case "pElite" => ga.pElite
    case "maxNGeneMut" => ga.maxNGeneMut
    case "maxRandVal" => ga.maxRandVal
    case "minRandVal" => ga.minRandVal
    case _ => Field(ga.opts, k)
  }

  /** `this.score = require('./score')(this.validateFitness)` when score is null (index.js:217-219). */
  function ResolvedScore(opts: Opts): Val
  {
    if Field(opts, "score") == Null
    then (if Truthy(Field(opts, "validateFitness")) then Func("scoreChecked") else Func("score"))
    else Field(opts, "score")
  }

  /** `if (this.nElite < 1) this.nElite = Math.floor(this.nElite * this.popSize)` (index.js:222-224) */
  function ResolvedNElite(opts: Opts): Val
  {
    var nElite := ToNum(Field(opts, "nElite"));
    if Lt(nElite, Finite(1.0)) then Number(Floor(Mul(nElite, ToNum(Field(opts, "popSize")))))
    else Field(opts, "nElite")
  }

  /** `if (this.pElite === null) this.pElite = this.nElite / this.popSize`, with the resolved nElite (index.js:227-229) */
  function ResolvedPElite(opts: Opts, nElite: Val): Val
  {
    if Field(opts, "pElite") == Null then Number(Div(ToNum(nElite), ToNum(Field(opts, "popSize"))))
    else Field(opts, "pElite")
  }

  /** `if (this.maxNGeneMut === null) this.maxNGeneMut = this.minNGeneMut + Math.floor(Math.log2(nGenes) / 2)` (index.js:232-234) */
  function ResolvedMaxNGeneMut(opts: Opts, nGenes: nat): Val
    requires nGenes >= 1
  {
    if Field(opts, "maxNGeneMut") == Null
    then Number(Add(ToNum(Field(opts, "minNGeneMut")), Finite(HalfLog2(nGenes) as real)))
    else Field(opts, "maxNGeneMut")
  }

  /** The upper bound of the search space, from the dtype when null (index.js:237-245). */
  function ResolvedMaxRandVal(opts: Opts, k: Arrays.Kind): Val
  {
    if Field(opts, "maxRandVal") == Null then Number(Finite(DefaultMaxRandVal(k))) else Field(opts, "maxRandVal")
  }

  /** The lower bound of the search space, from the dtype when null (index.js:246-254). */
  function ResolvedMinRandVal(opts: Opts, k: Arrays.Kind): Val
  {
    if Field(opts, "minRandVal") == Null then Number(Finite(DefaultMinRandVal(k))) else Field(opts, "minRandVal")
  }

  /** The object the constructor leaves behind once isMultimodal is off (index.js:203-254). */
  function Resolve(f: Val, nGenes: nat, k: Arrays.Kind, opts: Opts): (ga: GA)
    requires nGenes >= 1
  {
    var nElite := ResolvedNElite(opts);
    GA(f, nGenes, k, Arrays.Bits(k), opts,
       Func("noop"), ResolvedScore(opts), nElite, ResolvedPElite(opts, nElite),
       ResolvedMaxNGeneMut(opts, nGenes), ResolvedMaxRandVal(opts, k), ResolvedMinRandVal(opts, k))
  }

  /** The GeneticAlgorithm constructor; Err(e) when it throws e. */
  function Construct(f: Val, nGenes: Val, dtype: Val, opts: Opts, mins: Validate.Mins): Result<GA, Error>
  {
    var e := FirstError(Checks(f, nGenes, dtype, opts, mins));
    if e.Some? then Err(e.value)
    else
      Validate.ArgChecksPass("f", f, nGenes, dtype);
      FirstErrorConcat(ArgChecks(f, nGenes, dtype), OptChecks(opts, nGenes, dtype, mins));
      FirstErrorConcat(Validate.ArgChecks("f", f, nGenes, dtype), [FunctionCheck(f)]);
      Build(f, nGenes.n.v.Floor, Arrays.KindOf(dtype.s).value, opts)
  }

  /** The part after the checks (index.js:115-118, 203-254): merge opts over DEFAULTS, then derive the defaults. */
  function Build(f: Val, nGenes: nat, k: Arrays.Kind, opts: Opts): (r: Result<GA, Error>)
    requires nGenes >= 1
    ensures r.Err? <==> MultimodalMissing(opts)
    ensures r.Err? ==> r.error == MultimodalModuleMissing
    ensures r.Ok? ==> r.value.nGenes == nGenes && r.value.kind == k && r.value.nBits == Arrays.Bits(k)
  {
    if Truthy(Field(opts, "isMultimodal")) && !Truthy(Field(opts, "multimodal")) then Err(MultimodalModuleMissing)
    else Ok(Resolve(f, nGenes, k, opts))
  }

  // ---------------------------------------------------------------------------
  // What the constructor accepts, stated as conditions rather than as checks in order

  predicate ArgsOk(f: Val, nGenes: Val, dtype: Val)
  {
    Validate.ArgsOk(f, nGenes, dtype) && f.Func?
  }

  predicate KeysOk(opts: Opts)
  {
    (forall k | k in NUM_POS_KEYS :: KeyOk(opts, k, Pos)) &&
    (forall k | k in NUM_INT_KEYS :: KeyOk(opts, k, Second.Int)) &&
    (forall k | k in PROB_KEYS :: KeyOk(opts, k, Prob))
  }

  predicate GeneMutOk(opts: Opts, nGenes: Val)
  {
    Present(opts, "minNGeneMut") ==>
      Le(ToNum(Get(opts, "minNGeneMut")), ToNum(nGenes)) && Ge(ToNum(Get(opts, "minNGeneMut")), Finite(1.0))
  }

  predicate OptsOk(opts: Opts, nGenes: Val, dtype: Val, mins: Validate.Mins)
  {
    KeysOk(opts) && Validate.MinimaOk(opts, mins) && Validate.NEliteOk(opts, mins)
    && GeneMutOk(opts, nGenes) && Validate.RandValOk(opts, dtype) && UnknownKeys(opts) == {}
  }

  /** The merged options ask for the multimodal module while disabling it. */
  predicate MultimodalMissing(opts: Opts)
  {
    Truthy(Field(opts, "isMultimodal")) && !Truthy(Field(opts, "multimodal"))
  }

  lemma ArgChecksPass(f: Val, nGenes: Val, dtype: Val)
    ensures FirstError(ArgChecks(f, nGenes, dtype)).None? <==> ArgsOk(f, nGenes, dtype)
    ensures f == Undefined ==> FirstError(ArgChecks(f, nGenes, dtype)) == Some(MustSet("f"))
  {
    Validate.ArgChecksPass("f", f, nGenes, dtype);
    FirstErrorConcat(Validate.ArgChecks("f", f, nGenes, dtype), [FunctionCheck(f)]);
    assert FirstError([FunctionCheck(f)]).None? <==> FunctionCheck(f).None?;
  }

  lemma NumberChecksPass(opts: Opts, mins: Validate.Mins)
    ensures FirstError(NumberChecks(opts, mins)).None? <==> KeysOk(opts) && Validate.MinimaOk(opts, mins)
  {
    var l1 := KeyLoop(opts, NUM_POS_KEYS, Pos);
    var l2 := KeyLoop(opts, NUM_INT_KEYS, Second.Int);
    var mc := Validate.MinimaChecks(opts, mins);
    var l3 := KeyLoop(opts, PROB_KEYS, Prob);
    FirstErrorConcat(l1 + l2 + mc, l3);
    FirstErrorConcat(l1 + l2, mc);
    FirstErrorConcat(l1, l2);
    KeyLoopPasses(opts, NUM_POS_KEYS, Pos);
    KeyLoopPasses(opts, NUM_INT_KEYS, Second.Int);
    KeyLoopPasses(opts, PROB_KEYS, Prob);
    Validate.MinimaChecksPass(opts, mins);
  }

  lemma RelationChecksPass(opts: Opts, nGenes: Val, dtype: Val, mins: Validate.Mins)
    ensures FirstError(RelationChecks(opts, nGenes, dtype, mins)).None? <==>
      Validate.NEliteOk(opts, mins) && GeneMutOk(opts, nGenes) && Validate.RandValOk(opts, dtype) && UnknownKeys(opts) == {}
  {
    var nc := Validate.NEliteChecks(opts, mins);
    var g := GeneMutChecks(opts, nGenes);
    var r := Validate.RandValChecks(opts, dtype);
    var u := [UnknownKeyCheck(opts)];
    FirstErrorConcat(nc + g + r, u);
    FirstErrorConcat(nc + g, r);
    FirstErrorConcat(nc, g);
    Validate.NEliteChecksPass(opts, mins);
    Validate.RandValChecksPass(opts, dtype);
    assert FirstError(g).None? <==> g[0].None? && g[1].None?;
    assert FirstError(u).None? <==> u[0].None?;
  }

  lemma OptChecksPass(opts: Opts, nGenes: Val, dtype: Val, mins: Validate.Mins)
    ensures FirstError(OptChecks(opts, nGenes, dtype, mins)).None? <==> OptsOk(opts, nGenes, dtype, mins)
  {
    FirstErrorConcat(NumberChecks(opts, mins), RelationChecks(opts, nGenes, dtype, mins));
    NumberChecksPass(opts, mins);
    RelationChecksPass(opts, nGenes, dtype, mins);
  }

  /** The constructor returns exactly when the checks pass and the multimodal module is not asked for. */
  lemma ConstructAccepts(f: Val, nGenes: Val, dtype: Val, opts: Opts, mins: Validate.Mins)
    ensures Construct(f, nGenes, dtype, opts, mins).Ok? <==>
      ArgsOk(f, nGenes, dtype) && OptsOk(opts, nGenes, dtype, mins) && !MultimodalMissing(opts)
  {
    FirstErrorConcat(ArgChecks(f, nGenes, dtype), OptChecks(opts, nGenes, dtype, mins));
    ArgChecksPass(f, nGenes, dtype);
    OptChecksPass(opts, nGenes, dtype, mins);
  }

  /** The rejections the constructor makes (index.js:99-113, 171-201). */
  lemma ConstructRejects(f: Val, nGenes: Val, dtype: Val, opts: Opts, mins: Validate.Mins, k: string)
    ensures !IsIntegerVal(nGenes) ==> Construct(f, nGenes, dtype, opts, mins).Err?
    ensures Lt(ToNum(nGenes), Finite(1.0)) ==> Construct(f, nGenes, dtype, opts, mins).Err?
    ensures !Validate.IsDtype(dtype) ==> Construct(f, nGenes, dtype, opts, mins).Err?
    ensures !f.Func? ==> Construct(f, nGenes, dtype, opts, mins).Err?
    ensures Present(opts, "popSize") && Lt(ToNum(Get(opts, "popSize")), mins.popSize)
            ==> Construct(f, nGenes, dtype, opts, mins).Err?
    ensures Present(opts, "nTrack") && Lt(ToNum(Get(opts, "nTrack")), mins.nTrack)
            ==> Construct(f, nGenes, dtype, opts, mins).Err?
    ensures k in PROB_KEYS && Present(opts, k) && (Lt(ToNum(Get(opts, k)), Finite(0.0)) || Gt(ToNum(Get(opts, k)), Finite(1.0)))
            ==> Construct(f, nGenes, dtype, opts, mins).Err?
    ensures Present(opts, "nElite") && Present(opts, "popSize") && Gt(ToNum(Get(opts, "nElite")), ToNum(Get(opts, "popSize")))
            ==> Construct(f, nGenes, dtype, opts, mins).Err?
    ensures Present(opts, "nElite") && !IsIntegerVal(Get(opts, "nElite")) && Gt(ToNum(Get(opts, "nElite")), Finite(1.0))
            ==> Construct(f, nGenes, dtype, opts, mins).Err?
    ensures Present(opts, "nElite") && IsIntegerVal(Get(opts, "nElite")) && Lt(ToNum(Get(opts, "nElite")), mins.nElite)
            ==> Construct(f, nGenes, dtype, opts, mins).Err?
    ensures Present(opts, "minNGeneMut") && (Lt(ToNum(Get(opts, "minNGeneMut")), Finite(1.0)) || Gt(ToNum(Get(opts, "minNGeneMut")), ToNum(nGenes)))
            ==> Construct(f, nGenes, dtype, opts, mins).Err?
    ensures Present(opts, "minRandVal") && Validate.IsUnsigned(dtype) && Lt(ToNum(Get(opts, "minRandVal")), Finite(0.0))
            ==> Construct(f, nGenes, dtype, opts, mins).Err?
    ensures Present(opts, "minRandVal") && Present(opts, "maxRandVal") && Gt(ToNum(Get(opts, "minRandVal")), ToNum(Get(opts, "maxRandVal")))
            ==> Construct(f, nGenes, dtype, opts, mins).Err?
    ensures k in opts && !Recognised(k) ==> Construct(f, nGenes, dtype, opts, mins).Err?
  {
    ConstructAccepts(f, nGenes, dtype, opts, mins);
  }

  lemma ArgChecksBlameNoOption(f: Val, nGenes: Val, dtype: Val, opts: Opts)
    ensures Validate.AllBlamePresent(opts, ArgChecks(f, nGenes, dtype))
  {
    Validate.ArgChecksBlameNoOption("f", f, nGenes, dtype, opts);
    Validate.AllBlamePresentConcat(opts, Validate.ArgChecks("f", f, nGenes, dtype), [FunctionCheck(f)]);
  }

  lemma NumberChecksBlamePresent(opts: Opts, mins: Validate.Mins)
    ensures Validate.AllBlamePresent(opts, NumberChecks(opts, mins))
  {
    var l1 := KeyLoop(opts, NUM_POS_KEYS, Pos);
    var l2 := KeyLoop(opts, NUM_INT_KEYS, Second.Int);
    var mc := Validate.MinimaChecks(opts, mins);
    var l3 := KeyLoop(opts, PROB_KEYS, Prob);
    Validate.KeyLoopBlamesPresent(opts, NUM_POS_KEYS, Pos);
    Validate.KeyLoopBlamesPresent(opts, NUM_INT_KEYS, Second.Int);
    Validate.KeyLoopBlamesPresent(opts, PROB_KEYS, Prob);
    Validate.MinimaChecksBlamePresent(opts, mins);
    Validate.AllBlamePresentConcat(opts, l1, l2);
    Validate.AllBlamePresentConcat(opts, l1 + l2, mc);
    Validate.AllBlamePresentConcat(opts, l1 + l2 + mc, l3);
  }

  lemma RelationChecksBlamePresent(opts: Opts, nGenes: Val, dtype: Val, mins: Validate.Mins)
    ensures Validate.AllBlamePresent(opts, RelationChecks(opts, nGenes, dtype, mins))
  {
    var nc := Validate.NEliteChecks(opts, mins);
    var g := GeneMutChecks(opts, nGenes);
    var r := Validate.RandValChecks(opts, dtype);
    var u := [UnknownKeyCheck(opts)];
    Validate.NEliteChecksBlamePresent(opts, mins);
    assert g[0].Some? ==> Validate.BlamesPresent(opts, g[0].value);
    assert g[1].Some? ==> Validate.BlamesPresent(opts, g[1].value);
    Validate.RandValChecksBlamePresent(opts, dtype);
    assert Validate.AllBlamePresent(opts, u);
    Validate.AllBlamePresentConcat(opts, nc, g);
    Validate.AllBlamePresentConcat(opts, nc + g, r);
    Validate.AllBlamePresentConcat(opts, nc + g + r, u);
  }

  /** Every error about an option is about one that was supplied: omitted options never throw (index.js:127-131). */
  lemma ErrorsBlamePresentOptions(f: Val, nGenes: Val, dtype: Val, opts: Opts, mins: Validate.Mins)
    requires Construct(f, nGenes, dtype, opts, mins).Err?
    ensures Validate.BlamesPresent(opts, Construct(f, nGenes, dtype, opts, mins).error)
  {
    var c := Checks(f, nGenes, dtype, opts, mins);
    if FirstError(c).Some? {
      FirstErrorBlamesPresent(f, nGenes, dtype, opts, mins);
    } else {
      MultimodalNeedsOption(opts);
    }
  }

  lemma FirstErrorBlamesPresent(f: Val, nGenes: Val, dtype: Val, opts: Opts, mins: Validate.Mins)
    requires FirstError(Checks(f, nGenes, dtype, opts, mins)).Some?
    ensures Validate.BlamesPresent(opts, FirstError(Checks(f, nGenes, dtype, opts, mins)).value)
  {
    var c := Checks(f, nGenes, dtype, opts, mins);
    ChecksBlamePresent(f, nGenes, dtype, opts, mins);
    var i :| 0 <= i < |c| && c[i] == FirstError(c);
  }

  /** The multimodal error needs isMultimodal in opts, since its default is false. */
  lemma MultimodalNeedsOption(opts: Opts)
    requires MultimodalMissing(opts)
    ensures Present(opts, "isMultimodal")
  {
    assert "isMultimodal" in opts;
  }

  lemma ChecksBlamePresent(f: Val, nGenes: Val, dtype: Val, opts: Opts, mins: Validate.Mins)
    ensures Validate.AllBlamePresent(opts, Checks(f, nGenes, dtype, opts, mins))
  {
    var a := ArgChecks(f, nGenes, dtype);
    var nc := NumberChecks(opts, mins);
    var rc := RelationChecks(opts, nGenes, dtype, mins);
    ArgChecksBlameNoOption(f, nGenes, dtype, opts);
    NumberChecksBlamePresent(opts, mins);
    RelationChecksBlamePresent(opts, nGenes, dtype, mins);
    Validate.AllBlamePresentConcat(opts, nc, rc);
    Validate.AllBlamePresentConcat(opts, a, nc + rc);
  }

  // ---------------------------------------------------------------------------
  // The derived defaults

  /** A constructed object is the one Build makes from the checked arguments. */
  lemma ConstructBuilds(f: Val, nGenes: Val, dtype: Val, opts: Opts, mins: Validate.Mins)
    requires Construct(f, nGenes, dtype, opts, mins).Ok?
    ensures ArgsOk(f, nGenes, dtype) && nGenes.n.v.Floor >= 1 && dtype.s in Arrays.DTYPES
    ensures Construct(f, nGenes, dtype, opts, mins) == Build(f, nGenes.n.v.Floor, Arrays.KindOf(dtype.s).value, opts)
    ensures Arrays.KindName(Construct(f, nGenes, dtype, opts, mins).value.kind) == dtype.s
  {
    ConstructAccepts(f, nGenes, dtype, opts, mins);
  }

  /** Every other field is the supplied option when there is one and the default otherwise (index.js:203-209). */
  lemma ResolveMerges(f: Val, nGenes: nat, k: Arrays.Kind, opts: Opts, key: string)
    requires nGenes >= 1
    requires key !in RESOLVED_KEYS
    ensures key in opts ==> FieldOf(Resolve(f, nGenes, k, opts), key) == opts[key]
    ensures key !in opts ==> FieldOf(Resolve(f, nGenes, k, opts), key) == DefaultOf(key)
  {
    assert key != "multimodal" && key != "score" && key != "nElite" && key != "pElite";
    assert key != "maxNGeneMut" && key != "maxRandVal" && key != "minRandVal";
  }

  /** floor(x * p) for a ratio 0 <= x < 1 is a count in [0, p). */
  lemma FloorOfRatio(x: real, p: real)
    requires 0.0 <= x < 1.0
    ensures p >= 0.0 ==> 0 <= (x * p).Floor
    ensures p > 0.0 ==> (x * p).Floor as real < p
  {
    if p >= 0.0 {
      assert 0.0 <= x * p;
    }
    if p > 0.0 {
      assert x * p < p;
    }
  }

  /** A ratio nElite below 1 becomes floor(nElite * popSize) elites, fewer than popSize (index.js:222-224). */
  lemma ResolveRatioNElite(opts: Opts, x: real, p: real)
    requires Field(opts, "nElite") == Number(Finite(x)) && 0.0 <= x < 1.0
    requires ToNum(Field(opts, "popSize")) == Finite(p)
    ensures ResolvedNElite(opts) == Number(Finite((x * p).Floor as real))
    ensures p >= 0.0 ==> 0 <= (x * p).Floor
    ensures p > 0.0 ==> (x * p).Floor as real < p
  {
    assert Lt(Finite(x), Finite(1.0));
    assert Mul(Finite(x), Finite(p)) == Finite(x * p);
    FloorOfRatio(x, p);
  }

  /** An nElite of at least 1 (or not a number) is kept as given (index.js:222). */
  lemma ResolveKeepsCount(opts: Opts)
    requires !Lt(ToNum(Field(opts, "nElite")), Finite(1.0))
    ensures ResolvedNElite(opts) == Field(opts, "nElite")
  {
  }

  /** e / q is a probability when 0 <= e <= q and q > 0. */
  lemma ShareIsProbability(e: Num, q: Num)
    requires e.Finite? && q.Finite? && 0.0 <= e.v <= q.v && q.v > 0.0
    ensures Div(e, q).Finite? && 0.0 <= Div(e, q).v <= 1.0
  {
    assert Div(e, q) == Finite(e.v / q.v);
    DivAtMostOne(e.v, q.v);
  }

  lemma DivAtMostOne(a: real, b: real)
    requires 0.0 <= a <= b && b > 0.0
    ensures 0.0 <= a / b <= 1.0
  {
    assert (a / b) * b == a;
  }

  /**
   * A missing pElite becomes the share of elites, nElite / popSize, taken
   * with the resolved nElite; it is a probability when
   * 0 <= nElite <= popSize and popSize > 0 (index.js:227-229).
   */
  lemma ResolvePEliteDefault(opts: Opts, nElite: Val)
    requires "pElite" !in opts
    ensures ResolvedPElite(opts, nElite) == Number(Div(ToNum(nElite), ToNum(Field(opts, "popSize"))))
    ensures var e := ToNum(nElite);
      var q := ToNum(Field(opts, "popSize"));
      e.Finite? && q.Finite? && 0.0 <= e.v <= q.v && q.v > 0.0 ==>
        ResolvedPElite(opts, nElite).Number? && ResolvedPElite(opts, nElite).n.Finite? &&
        0.0 <= ResolvedPElite(opts, nElite).n.v <= 1.0
  {
    var e := ToNum(nElite);
    var q := ToNum(Field(opts, "popSize"));
    if e.Finite? && q.Finite? && 0.0 <= e.v <= q.v && q.v > 0.0 {
      ShareIsProbability(e, q);
    }
  }

  /** A missing score becomes the checking scorer when validateFitness is on, the plain one otherwise (index.js:217-219). */
  lemma ResolveScoreDefault(opts: Opts)
    requires "score" !in opts
    ensures ResolvedScore(opts) == (if Truthy(Field(opts, "validateFitness")) then Func("scoreChecked") else Func("score"))
  {
  }

  /** With no options, the defaults resolve to 60 elites of the default 300 (index.js:57-80, 222-224). */
  lemma DefaultNElite(opts: Opts)
    requires forall key :: key !in opts
    ensures ResolvedNElite(opts) == Number(Finite(60.0))
  {
    ResolveRatioNElite(opts, 0.2, 300.0);
    assert (0.2 * 300.0).Floor == 60;
  }

  /** ... and to pElite = 60 / 300 = 0.2 (index.js:227-229). */
  lemma DefaultPElite(opts: Opts)
    requires forall key :: key !in opts
    ensures ResolvedPElite(opts, Number(Finite(60.0))) == Number(Finite(0.2))
  {
    assert Div(Finite(60.0), Finite(300.0)) == Finite(0.2);
  }

  /** ... and to maxNGeneMut = 1 + floor(log2(nGenes) / 2) (index.js:232-234). */
  lemma DefaultMaxNGeneMut(opts: Opts, nGenes: nat)
    requires nGenes >= 1
    requires forall key :: key !in opts
    ensures ResolvedMaxNGeneMut(opts, nGenes) == Number(Finite(1.0 + HalfLog2(nGenes) as real))
  {
  }

  /** A missing maxNGeneMut becomes minNGeneMut + floor(log2(nGenes) / 2), and 2^(2 * that step) <= nGenes (index.js:232-234). */
  lemma ResolveMaxNGeneMutDefault(opts: Opts, nGenes: nat)
    requires nGenes >= 1
    requires "maxNGeneMut" !in opts
    ensures ResolvedMaxNGeneMut(opts, nGenes) == Number(Add(ToNum(Field(opts, "minNGeneMut")), Finite(HalfLog2(nGenes) as real)))
    ensures Pow2(2 * HalfLog2(nGenes)) <= nGenes
  {
    ILog2Bounds(nGenes);
    Pow2Monotone(2 * HalfLog2(nGenes), ILog2(nGenes));
  }

  lemma {:induction false} Pow2Monotone(a: nat, b: nat)
    requires a <= b
    ensures Pow2(a) <= Pow2(b)
  {
    if a < b {
      Pow2Monotone(a, b - 1);
    }
  }

  /** Missing bounds become the dtype's defaults; supplied ones are kept (index.js:237-254). */
  lemma ResolveRandValsDefault(opts: Opts, k: Arrays.Kind)
    ensures "maxRandVal" !in opts ==> ResolvedMaxRandVal(opts, k) == Number(Finite(DefaultMaxRandVal(k)))
    ensures "minRandVal" !in opts ==> ResolvedMinRandVal(opts, k) == Number(Finite(DefaultMinRandVal(k)))
    ensures "maxRandVal" in opts && opts["maxRandVal"] != Null ==> ResolvedMaxRandVal(opts, k) == opts["maxRandVal"]
    ensures "minRandVal" in opts && opts["minRandVal"] != Null ==> ResolvedMinRandVal(opts, k) == opts["minRandVal"]
  {
  }

  /** The default bounds of the 'i' dtypes are the symmetric range [-(2^(nBits-1)) + 1, 2^(nBits-1) - 1] (index.js:241-242, 250-251). */
  lemma DefaultBoundsInt(k: Arrays.Kind)
    requires IsIntKind(k)
    ensures Arrays.Bits(k) in {8, 16, 32}
    ensures DefaultMaxRandVal(k) == (Pow2(Arrays.Bits(k) - 1) - 1) as real
    ensures DefaultMinRandVal(k) == -DefaultMaxRandVal(k)
    ensures DefaultMinRandVal(k) < DefaultMaxRandVal(k)
  {
    assert !IsFloatKind(k);
    Pow2Monotone(1, Arrays.Bits(k) - 1);
  }

  /** The default bounds of the 'u' dtypes are [0, 2^nBits - 1] (index.js:243-244, 252-253). */
  lemma DefaultBoundsUint(k: Arrays.Kind)
    requires IsUintKind(k)
    ensures Arrays.Bits(k) in {8, 16, 32}
    ensures DefaultMinRandVal(k) == 0.0 && DefaultMaxRandVal(k) == (Pow2(Arrays.Bits(k)) - 1) as real
    ensures DefaultMinRandVal(k) < DefaultMaxRandVal(k)
  {
    assert !IsFloatKind(k) && !IsIntKind(k);
    Pow2Monotone(1, Arrays.Bits(k));
  }

  /** The default bounds of the 'f' dtypes are a tiny positive lower bound below a huge upper one (index.js:239-240, 248-249). */
  lemma DefaultBoundsFloat(k: Arrays.Kind)
    requires IsFloatKind(k)
    ensures 0.0 < DefaultMinRandVal(k) < 1.0 < DefaultMaxRandVal(k)
  {
  }

  /**
   * nElite is compared with popSize only when both are supplied, so 500
   * elites pass next to the default popSize of 300 and stay 500.
   */
  lemma NEliteAboveDefaultPopSize(f: Val, nGenes: Val, dtype: Val, opts: Opts, mins: Validate.Mins)
    requires ArgsOk(f, nGenes, dtype)
    requires forall k | k in opts :: k == "nElite"
    requires Get(opts, "nElite") == Number(Finite(500.0))
    requires Le(mins.nElite, Finite(500.0))
    ensures Construct(f, nGenes, dtype, opts, mins).Ok?
    ensures ResolvedNElite(opts) == Number(Finite(500.0)) && Field(opts, "popSize") == Number(Finite(300.0))
  {
    OnlyNEliteOk(opts, nGenes, dtype, mins);
    ConstructAccepts(f, nGenes, dtype, opts, mins);
    NEliteKept(opts);
  }

  lemma NEliteKept(opts: Opts)
    requires forall k | k in opts :: k == "nElite"
    requires Get(opts, "nElite") == Number(Finite(500.0))
    ensures ResolvedNElite(opts) == Number(Finite(500.0)) && Field(opts, "popSize") == Number(Finite(300.0))
  {
    assert !Lt(Finite(500.0), Finite(1.0));
    ResolveKeepsCount(opts);
  }

  lemma OnlyNEliteOk(opts: Opts, nGenes: Val, dtype: Val, mins: Validate.Mins)
    requires forall k | k in opts :: k == "nElite"
    requires Get(opts, "nElite") == Number(Finite(500.0))
    requires Le(mins.nElite, Finite(500.0))
    ensures OptsOk(opts, nGenes, dtype, mins) && !MultimodalMissing(opts)
  {
    OnlyNEliteKeysOk(opts);
    assert UnknownKeys(opts) == {};
    assert !Present(opts, "popSize") && !Present(opts, "minNGeneMut") && !Present(opts, "minRandVal");
    assert IsIntegerVal(Get(opts, "nElite"));
  }

  lemma OnlyNEliteKeysOk(opts: Opts)
    requires forall k | k in opts :: k == "nElite"
    requires Get(opts, "nElite") == Number(Finite(500.0))
    ensures KeysOk(opts)
  {
    assert IsInteger(Finite(500.0));
  }
}
