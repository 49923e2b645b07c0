/**
 * The genome decoders of the two meta-search examples (examples/meta.js and
 * examples/meta.ts). A meta-search runs a genetic algorithm over u8
 * candidates; its fitness decodes each candidate into the options of a
 * sub-search. decodeCand is a pure map from the genes to an option record.
 */
module Meta {
  import opened Wrappers
  import opened JsNumber
  import opened JsValue
  import ConstructJs
  import Validate

  /** A candidate of the meta-search: n genes of a Uint8Array. */
  predicate U8Genes(cand: seq<int>, n: nat)
  {
    |cand| == n && forall i | 0 <= i < |cand| :: 0 <= cand[i] < 256
  }

  function MinInt(a: int, b: int): int { if a <= b then a else b }

  function MaxInt(a: int, b: int): int { if a >= b then a else b }

  // ---------------------------------------------------------------------------
  // examples/meta.js

  /** nGenes of the meta-search in meta.js (meta.js:26). */
  const JS_NGENES: nat := 8

  /** The sub-search of meta.js: `new GA(f, 12, 'f32', decodeCand(cand))` (meta.js:50). */
  const SUB_NGENES: nat := 12

  /** The record decodeCand of meta.js returns. */
  datatype JsCand = JsCand(acc: real, maxNGeneMut: int, minNGeneMut: int, nElite: real, pMutate: real,
                           popSize: int, timeOutMS: int)

  /** decodeCand (meta.js:32-42); `2 ** nGenes` is 256. */
  function DecodeJs(cand: seq<int>): (d: JsCand)
    requires U8Genes(cand, JS_NGENES)
    ensures 0.0 <= d.nElite < 1.0 && 0.0 <= d.pMutate < 1.0 && 0.0 <= d.acc < 0.1
    ensures 0 <= d.maxNGeneMut <= JS_NGENES
    ensures d.minNGeneMut == 0 || d.minNGeneMut == 1
    ensures d.minNGeneMut == 0 <==> cand[2] == 0
    ensures d.nElite == 0.0 <==> cand[0] == 0
    ensures d.popSize >= 10 && d.timeOutMS == 12000
  {
    JsCand(acc := cand[4] as real / 2560.0,
           maxNGeneMut := MinInt(JS_NGENES, cand[5]),
           minNGeneMut := MinInt(1, cand[2]),
           nElite := cand[0] as real / 256.0,
           pMutate := cand[3] as real / 256.0,
           popSize := MaxInt(10, cand[1]),
           timeOutMS := 12000)
  }

  /** The object literal decodeCand returns, as the options the sub-search's constructor receives. */
  function JsOptions(d: JsCand): (o: Opts)
    ensures "acc" in o
  {
    map["acc" := Number(Finite(d.acc)),
        "maxNGeneMut" := Number(Finite(d.maxNGeneMut as real)),
        "minNGeneMut" := Number(Finite(d.minNGeneMut as real)),
        "nElite" := Number(Finite(d.nElite)),
        "pMutate" := Number(Finite(d.pMutate)),
        "popSize" := Number(Finite(d.popSize as real)),
        "timeOutMS" := Number(Finite(d.timeOutMS as real))]
  }

  /** The sub-search's constructor call of meta.js (meta.js:50). */
  function SubSearchJs(o: Opts, mins: Validate.Mins): Result<ConstructJs.GA, Error>
  {
    ConstructJs.Construct(Func("f"), Number(Finite(SUB_NGENES as real)), Str("f32"), o, mins)
  }

  /** acc is not an option of the index.js engine. */
  lemma AccUnrecognised()
    ensures !ConstructJs.Recognised("acc")
  {
  }

  /**
   * Every candidate decodes to options the index.js constructor throws on:
   * acc is not among its DEFAULTS (index.js:196-201), so the fitness of
   * meta.js never reaches a search.
   */
  lemma DecodedJsRejected(cand: seq<int>, mins: Validate.Mins)
    requires U8Genes(cand, JS_NGENES)
    ensures SubSearchJs(JsOptions(DecodeJs(cand)), mins).Err?
  {
    AccUnrecognised();
    ConstructJs.ConstructRejects(Func("f"), Number(Finite(SUB_NGENES as real)), Str("f32"),
                                 JsOptions(DecodeJs(cand)), mins, "acc");
  }

  /** The options of the outer meta-search (meta.js:12-24); the list of signals is an array. */
  function OuterOptsJs(): (o: Opts)
    ensures "signals" in o && o["signals"] == Other
  {
    map["popSize" := Number(Finite(10.0)), "signals" := Other, "timeOutMS" := Number(Finite(300000.0))]
  }

  /**
   * The outer meta-search itself (meta.js:60) throws: `signals` is not an
   * option of the index.js engine either, so meta.js stops before any
   * sub-search is built.
   */
  lemma OuterSearchJsRejected(mins: Validate.Mins)
    ensures ConstructJs.Construct(Func("fitness"), Number(Finite(JS_NGENES as real)), Str("u8"), OuterOptsJs(), mins).Err?
  {
    assert !ConstructJs.Recognised("signals");
    ConstructJs.ConstructRejects(Func("fitness"), Number(Finite(JS_NGENES as real)), Str("u8"), OuterOptsJs(), mins, "signals");
  }

  /** A zero third gene decodes to minNGeneMut 0, which the constructor's `assGTE('minNGeneMut', 1)` rejects on its own. */
  lemma ZeroGeneBelowMinNGeneMut(cand: seq<int>)
    requires U8Genes(cand, JS_NGENES) && cand[2] == 0
    ensures Get(JsOptions(DecodeJs(cand)), "minNGeneMut") == Number(Finite(0.0))
    ensures !ConstructJs.GeneMutOk(JsOptions(DecodeJs(cand)), Number(Finite(SUB_NGENES as real)))
  {
  }

  /**
   * The decoder with the two defects removed: no acc key, and minNGeneMut
   * clamped into [1, 12] as the constructor demands (index.js:187-188).
   */
  function DecodeJsIntended(cand: seq<int>): (d: JsCand)
    requires U8Genes(cand, JS_NGENES)
    ensures 1 <= d.minNGeneMut <= SUB_NGENES
    ensures d.minNGeneMut == cand[2] <==> 1 <= cand[2] <= SUB_NGENES
    ensures d.maxNGeneMut == DecodeJs(cand).maxNGeneMut && d.nElite == DecodeJs(cand).nElite
    ensures d.pMutate == DecodeJs(cand).pMutate && d.popSize == DecodeJs(cand).popSize
  {
    DecodeJs(cand).(minNGeneMut := MaxInt(1, MinInt(SUB_NGENES, cand[2])))
  }

  /** The options of the intended decoder: those of JsOptions without acc. */
  function JsOptionsIntended(d: JsCand): (o: Opts)
    ensures ConstructJs.UnknownKeys(o) == {}
    ensures forall k | k in o :: k in JsOptions(d) && o[k] == JsOptions(d)[k]
  {
    map["maxNGeneMut" := Number(Finite(d.maxNGeneMut as real)),
        "minNGeneMut" := Number(Finite(d.minNGeneMut as real)),
        "nElite" := Number(Finite(d.nElite)),
        "pMutate" := Number(Finite(d.pMutate)),
        "popSize" := Number(Finite(d.popSize as real)),
        "timeOutMS" := Number(Finite(d.timeOutMS as real))]
  }

  lemma IntendedKeysOk(d: JsCand)
    requires 0 <= d.maxNGeneMut && 0 <= d.minNGeneMut && 0.0 <= d.nElite && 0.0 <= d.pMutate <= 1.0
    requires 0 <= d.popSize && 0 <= d.timeOutMS
    ensures ConstructJs.KeysOk(JsOptionsIntended(d))
  {
    var o := JsOptionsIntended(d);
    forall k | k in ConstructJs.NUM_POS_KEYS
      ensures KeyOk(o, k, Pos)
    {
    }
    forall k | k in ConstructJs.NUM_INT_KEYS
      ensures KeyOk(o, k, Second.Int)
    {
    }
    forall k | k in ConstructJs.PROB_KEYS
      ensures KeyOk(o, k, Prob)
    {
    }
  }

  lemma IntendedRangesOk(d: JsCand, mins: Validate.Mins)
    requires 0.0 <= d.nElite < 1.0 && 10 <= d.popSize && 1 <= d.minNGeneMut <= SUB_NGENES
    requires Le(mins.popSize, Finite(10.0)) && (d.nElite == 0.0 ==> Le(mins.nElite, Finite(0.0)))
    ensures var o := JsOptionsIntended(d);
      Validate.MinimaOk(o, mins) && Validate.NEliteOk(o, mins)
      && ConstructJs.GeneMutOk(o, Number(Finite(SUB_NGENES as real))) && Validate.RandValOk(o, Str("f32"))
  {
    var o := JsOptionsIntended(d);
    assert Validate.MinimaOk(o, mins) by {
      assert Get(o, "popSize") == Number(Finite(d.popSize as real));
      assert "nTrack" !in o;
    }
    assert ConstructJs.GeneMutOk(o, Number(Finite(SUB_NGENES as real))) by {
      assert Get(o, "minNGeneMut") == Number(Finite(d.minNGeneMut as real));
    }
    assert Validate.RandValOk(o, Str("f32")) by {
      assert "minRandVal" !in o;
    }
    assert Validate.NEliteOk(o, mins) by {
      IntendedNEliteOk(d, mins);
    }
  }

  /** A ratio nElite below 1 passes the nElite checks; a zero one needs MIN_NELITE at most 0. */
  lemma IntendedNEliteOk(d: JsCand, mins: Validate.Mins)
    requires 0.0 <= d.nElite < 1.0 && d.popSize >= 10
    requires d.nElite == 0.0 ==> Le(mins.nElite, Finite(0.0))
    ensures Validate.NEliteOk(JsOptionsIntended(d), mins)
  {
    var o := JsOptionsIntended(d);
    assert Get(o, "nElite") == Number(Finite(d.nElite)) && Get(o, "popSize") == Number(Finite(d.popSize as real));
    assert IsIntegerVal(Number(Finite(d.nElite))) ==> d.nElite == 0.0 by {
      if d.nElite != 0.0 {
        assert (d.nElite).Floor == 0;
      }
    }
  }

  /**
   * With MIN_POPSIZE at most 10, and MIN_NELITE at most 0 for a zero first
   * gene, every candidate decodes to options the index.js constructor accepts.
   */
  lemma DecodedJsIntendedAccepted(cand: seq<int>, mins: Validate.Mins)
    requires U8Genes(cand, JS_NGENES) && Le(mins.popSize, Finite(10.0))
    requires cand[0] == 0 ==> Le(mins.nElite, Finite(0.0))
    ensures SubSearchJs(JsOptionsIntended(DecodeJsIntended(cand)), mins).Ok?
  {
    var d := DecodeJsIntended(cand);
    var o := JsOptionsIntended(d);
    var nGenes := Number(Finite(SUB_NGENES as real));
    assert ConstructJs.OptsOk(o, nGenes, Str("f32"), mins) by {
      IntendedKeysOk(d);
      IntendedRangesOk(d, mins);
    }
    SubArgsOk();
    IntendedNotMultimodal(d);
    ConstructJs.ConstructAccepts(Func("f"), nGenes, Str("f32"), o, mins);
  }

  /** The arguments of the sub-search's constructor call pass its checks. */
  lemma SubArgsOk()
    ensures ConstructJs.ArgsOk(Func("f"), Number(Finite(SUB_NGENES as real)), Str("f32"))
  {
    assert IsInteger(Finite(12.0));
  }

  /** Neither decoder sets isMultimodal, so the constructor's multimodal check passes. */
  lemma IntendedNotMultimodal(d: JsCand)
    ensures !ConstructJs.MultimodalMissing(JsOptionsIntended(d))
  {
    assert "isMultimodal" !in JsOptionsIntended(d);
  }

  // ---------------------------------------------------------------------------
  // examples/meta.ts

  /** nGenes of the meta-search in meta.ts (meta.ts:15). */
  const TS_NGENES: nat := 7

  /** The record decodeCand of meta.ts returns. */
  datatype TsCand = TsCand(maxNGeneMut: int, minNGeneMut: int, nElite: int, nTrack: int, pMutate: real,
                           popSize: int, timeOutMS: int)

  /** decodeCand (meta.ts:17-30); `%` on non-negative integers agrees with JavaScript's. */
  function DecodeTs(cand: seq<int>): (d: TsCand)
    requires U8Genes(cand, TS_NGENES)
    ensures 1 <= d.minNGeneMut <= 256 && d.minNGeneMut <= d.maxNGeneMut <= 300
    ensures 80 <= d.popSize <= 335 && 2 <= d.nElite <= d.popSize + 1
    ensures 10 <= d.nTrack <= 265 && 0.0 <= d.pMutate < 1.0 && d.timeOutMS == 12000
  {
    var minNGeneMut := 1 + cand[0];
    var popSize := 80 + cand[2];
    TsCand(maxNGeneMut := MinInt(300, minNGeneMut + cand[1]),
           minNGeneMut := minNGeneMut,
           nElite := 2 + cand[3] % popSize,
           nTrack := 10 + cand[6],
           pMutate := cand[4] as real / 256.0,
           popSize := popSize,
           timeOutMS := 12000)
  }

  /** The sixth gene is never read: candidates differing only there decode alike. */
  lemma DecodeTsIgnoresGene5(c1: seq<int>, c2: seq<int>)
    requires U8Genes(c1, TS_NGENES) && U8Genes(c2, TS_NGENES)
    requires forall i | 0 <= i < TS_NGENES && i != 5 :: c1[i] == c2[i]
    ensures DecodeTs(c1) == DecodeTs(c2)
  {
    assert c1[0] == c2[0] && c1[1] == c2[1] && c1[2] == c2[2] && c1[3] == c2[3];
    assert c1[4] == c2[4] && c1[6] == c2[6];
  }

  /** nElite can exceed popSize by one: popSize 80 with a fourth gene of 79 gives nElite 81. */
  lemma NEliteCanExceedPopSize()
    ensures U8Genes([0, 0, 0, 79, 0, 0, 0], TS_NGENES)
    ensures DecodeTs([0, 0, 0, 79, 0, 0, 0]).popSize == 80 && DecodeTs([0, 0, 0, 79, 0, 0, 0]).nElite == 81
  {
  }

  /** nElite exceeds popSize exactly when the fourth gene is one below a multiple of popSize, and then by one. */
  lemma NEliteAbovePopSize(cand: seq<int>)
    requires U8Genes(cand, TS_NGENES)
    ensures var d := DecodeTs(cand);
      d.nElite > d.popSize <==> cand[3] % d.popSize == d.popSize - 1
    ensures DecodeTs(cand).nElite > DecodeTs(cand).popSize ==> DecodeTs(cand).nElite == DecodeTs(cand).popSize + 1
  {
  }
}
