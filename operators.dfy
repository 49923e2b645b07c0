/**
 * The default population operators of the JavaScript engine: initPop.js,
 * mutate.js and crossover.js. They work in place on the flat buffer `pop`
 * of popSize * nGenes genes, candidate c owning [c * nGenes, c * nGenes +
 * nGenes). Genes are integers (the integer dtypes). As on an integer typed
 * array, a write outside the buffer is ignored and a read outside it is
 * undefined, which the store turns into 0. `Math.random()` draws are the
 * parameter `draws`, consumed in order.
 */
module Operators {
  import opened Schedules
  import ConstructJs
  import Arrays
  import Population

  /** Every draw lies in [0, 1). */
  predicate Draws(draws: seq<real>)
  {
    forall i | 0 <= i < |draws| :: 0.0 <= draws[i] < 1.0
  }

  /** `pop[k] = v` on a typed array: ignored outside the buffer. */
  function Write(p: seq<int>, k: int, v: int): (q: seq<int>)
    ensures |q| == |p|
    ensures forall i | 0 <= i < |p| :: q[i] == if i == k then v else p[i]
  {
    if 0 <= k < |p| then p[k := v] else p
  }

  /** `pop[k]` stored into an integer typed array: 0 outside the buffer. */
  function Read(p: seq<int>, k: int): int
  {
    if 0 <= k < |p| then p[k] else 0
  }

  // ---------------------------------------------------------------------------
  // initPop (initPop.js)

  /** How many draws the first n genes take: one each for 'u' dtypes, two otherwise. */
  function DrawsFor(unsigned: bool, n: nat): nat
  {
    if unsigned then n else 2 * n
  }

  /** `dtype.startsWith('u')` */
  predicate IsUnsigned(dtype: string)
  {
    |dtype| > 0 && dtype[0] == 'u'
  }

  /**
   * The value initPop gives the k-th gene it writes. 'u' dtypes:
   * floor(r * maxRandVal). Others: floor(r * (r' < 0.5 ? maxRandVal :
   * minRandVal)), the multiplier r drawn before the coin r'.
   */
  function InitValue(draws: seq<real>, k: nat, unsigned: bool, maxRandVal: int, minRandVal: int): int
    requires DrawsFor(unsigned, k + 1) <= |draws|
  {
    if unsigned then Times(draws[k], maxRandVal as real).Floor
    else Times(draws[2 * k], (if draws[2 * k + 1] < 0.5 then maxRandVal else minRandVal) as real).Floor
  }

  /** 'u' dtypes start in [0, maxRandVal): minRandVal plays no part. */
  lemma InitValueUnsigned(draws: seq<real>, k: nat, maxRandVal: int, minRandVal: int)
    requires Draws(draws) && k < |draws| && maxRandVal >= 1
    ensures 0 <= InitValue(draws, k, true, maxRandVal, minRandVal) < maxRandVal
    ensures InitValue(draws, k, true, maxRandVal, minRandVal) == InitValue(draws, k, true, maxRandVal, 0)
  {
    FloorOfDrawBelow(draws[k], maxRandVal);
  }

  /** Other dtypes start in [minRandVal, maxRandVal) when minRandVal <= 0 < maxRandVal. */
  lemma InitValueSigned(draws: seq<real>, k: nat, maxRandVal: int, minRandVal: int)
    requires Draws(draws) && DrawsFor(false, k + 1) <= |draws| && minRandVal <= 0 < maxRandVal
    ensures minRandVal <= InitValue(draws, k, false, maxRandVal, minRandVal) < maxRandVal
  {
    if draws[2 * k + 1] < 0.5 {
      FloorOfDrawBelow(draws[2 * k], maxRandVal);
    } else {
      FloorOfDrawNegative(draws[2 * k], minRandVal);
    }
  }

  /** With the bounds the constructor derives for a 'u' dtype, no gene starts at the top value 2^nBits - 1. */
  lemma UnsignedNeverStartsAtTop(draws: seq<real>, k: nat, kind: Arrays.Kind)
    requires Draws(draws) && k < |draws| && ConstructJs.IsUintKind(kind)
    ensures 0 <= InitValue(draws, k, true, ConstructJs.Pow2(Arrays.Bits(kind)) - 1, 0) < ConstructJs.Pow2(Arrays.Bits(kind)) - 1
  {
    ConstructJs.DefaultBoundsUint(kind);
    InitValueUnsigned(draws, k, ConstructJs.Pow2(Arrays.Bits(kind)) - 1, 0);
  }

  /** The inner loop of initPop: the genes of the candidate at offset. */
  method InitGenes(draws: seq<real>, pop: array<int>, unsigned: bool, offset: nat, nGenes: nat, maxRandVal: int, minRandVal: int)
    requires DrawsFor(unsigned, offset + nGenes) <= |draws|
    modifies pop
    ensures forall k | 0 <= k < pop.Length ::
      pop[k] == if offset <= k < offset + nGenes then InitValue(draws, k, unsigned, maxRandVal, minRandVal) else old(pop[k])
  {
    var gIdx := 0;
    while gIdx < nGenes
      invariant 0 <= gIdx <= nGenes
      invariant forall k | 0 <= k < pop.Length ::
        pop[k] == if offset <= k < offset + gIdx then InitValue(draws, k, unsigned, maxRandVal, minRandVal) else old(pop[k])
    {
      var k := offset + gIdx;
      if k < pop.Length {
        if unsigned {
          pop[k] := Times(draws[k], maxRandVal as real).Floor;
        } else {
          pop[k] := Times(draws[2 * k], (if draws[2 * k + 1] < 0.5 then maxRandVal else minRandVal) as real).Floor;
        }
      }
      gIdx := gIdx + 1;
    }
  }

  /**
   * initPop: nested loops over candidates and genes write position
   * cIdx * nGenes + gIdx, so the k-th write lands at position k and every
   * position below popSize * nGenes is written once, in order.
   */
  method InitPop(draws: seq<real>, pop: array<int>, dtype: string, popSize: nat, nGenes: nat, maxRandVal: int, minRandVal: int)
    requires DrawsFor(IsUnsigned(dtype), popSize * nGenes) <= |draws|
    modifies pop
    ensures forall k | 0 <= k < pop.Length ::
      pop[k] == if k < popSize * nGenes then InitValue(draws, k, IsUnsigned(dtype), maxRandVal, minRandVal) else old(pop[k])
  {
    var unsigned := IsUnsigned(dtype);
    ghost var size := popSize * nGenes;
    ghost var done := 0;
    var cIdx := 0;
    while cIdx < popSize
      invariant 0 <= cIdx <= popSize && done == cIdx * nGenes && done <= size
      invariant forall k | 0 <= k < pop.Length ::
        pop[k] == if k < done then InitValue(draws, k, unsigned, maxRandVal, minRandVal) else old(pop[k])
    {
      var offset := cIdx * nGenes;
      assert offset + nGenes <= size by {
        Population.SliceInBuffer(cIdx, popSize, nGenes);
      }
      InitGenes(draws, pop, unsigned, offset, nGenes, maxRandVal, minRandVal);
      assert (cIdx + 1) * nGenes == cIdx * nGenes + nGenes;
      done := done + nGenes;
      cIdx := cIdx + 1;
    }
  }

  // ---------------------------------------------------------------------------
  // mutate (mutate.js)

  /** One write of mutate: gene index and new value. */
  datatype Choice = Choice(gene: int, value: int)

  /** The writes made, and whether all nMutations were made before the draws ran out. */
  datatype Run = Run(made: seq<Choice>, complete: bool)

  /** `Math.floor(r * nGenes)` */
  function GeneDraw(r: real, nGenes: nat): int
  {
    Times(r, nGenes as real).Floor
  }

  /** `minRandVal + Math.floor(r * (maxRandVal - minRandVal))` */
  function ValueDraw(r: real, minRandVal: int, maxRandVal: int): int
  {
    minRandVal + Times(r, (maxRandVal - minRandVal) as real).Floor
  }

  /**
   * The writes mutate has made once it reaches draw `at` with `made` done, n
   * still to make and `mutated` used: a gene draw that hits a used index is
   * thrown away and redrawn; a fresh one is followed by its value draw. The
   * loop in the source never gives up; running out of draws is reported as
   * an incomplete run.
   */
  function Choices(draws: seq<real>, at: nat, n: nat, nGenes: nat, minRandVal: int, maxRandVal: int,
                   mutated: set<int>, made: seq<Choice>): Run
    decreases |draws| - at
  {
    if n == 0 then Run(made, true)
    else if at >= |draws| then Run(made, false)
    else if GeneDraw(draws[at], nGenes) in mutated then Choices(draws, at + 1, n, nGenes, minRandVal, maxRandVal, mutated, made)
    else if at + 1 >= |draws| then Run(made, false)
    else
      var g := GeneDraw(draws[at], nGenes);
      Choices(draws, at + 2, n - 1, nGenes, minRandVal, maxRandVal, mutated + {g},
              made + [Choice(g, ValueDraw(draws[at + 1], minRandVal, maxRandVal))])
  }

  /** The run of a whole call of mutate. */
  function Mutation(draws: seq<real>, nMutations: nat, nGenes: nat, minRandVal: int, maxRandVal: int): Run
  {
    Choices(draws, 0, nMutations, nGenes, minRandVal, maxRandVal, {}, [])
  }

  /** The buffer after the writes cs, in order, relative to offset. */
  function Apply(p: seq<int>, offset: int, cs: seq<Choice>): (q: seq<int>)
    ensures |q| == |p|
  {
    if cs == [] then p
    else Write(Apply(p, offset, cs[..|cs| - 1]), offset + cs[|cs| - 1].gene, cs[|cs| - 1].value)
  }

  /** Skipping gene draws that hit a used index does not change the run. */
  method SkipUsed(draws: seq<real>, at: nat, n: nat, nGenes: nat, minRandVal: int, maxRandVal: int, mutated: set<int>,
                  ghost made: seq<Choice>)
    returns (next: nat)
    requires n > 0 && at <= |draws|
    ensures at <= next <= |draws|
    ensures next < |draws| ==> GeneDraw(draws[next], nGenes) !in mutated
    ensures Choices(draws, next, n, nGenes, minRandVal, maxRandVal, mutated, made) ==
      Choices(draws, at, n, nGenes, minRandVal, maxRandVal, mutated, made)
  {
    next := at;
    while next < |draws| && GeneDraw(draws[next], nGenes) in mutated
      invariant at <= next <= |draws|
      invariant Choices(draws, next, n, nGenes, minRandVal, maxRandVal, mutated, made) ==
        Choices(draws, at, n, nGenes, minRandVal, maxRandVal, mutated, made)
      decreases |draws| - next
    {
      next := next + 1;
    }
  }

  /** A fresh gene draw followed by a value draw makes one write and continues after both. */
  lemma ChoicesTake(draws: seq<real>, at: nat, n: nat, nGenes: nat, minRandVal: int, maxRandVal: int,
                    mutated: set<int>, made: seq<Choice>)
    requires n > 0 && at + 1 < |draws| && GeneDraw(draws[at], nGenes) !in mutated
    ensures Choices(draws, at, n, nGenes, minRandVal, maxRandVal, mutated, made) ==
      Choices(draws, at + 2, n - 1, nGenes, minRandVal, maxRandVal, mutated + {GeneDraw(draws[at], nGenes)},
              made + [Choice(GeneDraw(draws[at], nGenes), ValueDraw(draws[at + 1], minRandVal, maxRandVal))])
  {
  }

  /** With a fresh gene draw last, or no draw left, the run stops incomplete. */
  lemma ChoicesRunOut(draws: seq<real>, at: nat, n: nat, nGenes: nat, minRandVal: int, maxRandVal: int,
                      mutated: set<int>, made: seq<Choice>)
    requires n > 0 && at <= |draws| && at + 1 >= |draws|
    requires at < |draws| ==> GeneDraw(draws[at], nGenes) !in mutated
    ensures Choices(draws, at, n, nGenes, minRandVal, maxRandVal, mutated, made) == Run(made, false)
  {
  }

  /** `pop[k] = v` on the typed array itself. */
  method Store(pop: array<int>, k: int, v: int)
    modifies pop
    ensures pop[..] == Write(old(pop[..]), k, v)
  {
    if 0 <= k < pop.Length {
      pop[k] := v;
    }
  }

  /** One more write at the end. */
  lemma ApplySnoc(p: seq<int>, offset: int, made: seq<Choice>, c: Choice)
    ensures Apply(p, offset, made + [c]) == Write(Apply(p, offset, made), offset + c.gene, c.value)
  {
    assert (made + [c])[..|made|] == made;
  }

  /**
   * mutate: nMutations writes to distinct genes of the candidate at offset.
   * `ok` is false when the draws ran out, which in the source means the
   * retry loop never ends.
   */
  method Mutate(draws: seq<real>, nMutations: nat, offset: int, pop: array<int>, nGenes: nat, minRandVal: int, maxRandVal: int)
    returns (ok: bool)
    modifies pop
    ensures ok == Mutation(draws, nMutations, nGenes, minRandVal, maxRandVal).complete
    ensures pop[..] == Apply(old(pop[..]), offset, Mutation(draws, nMutations, nGenes, minRandVal, maxRandVal).made)
  {
    var mutated: set<int> := {};
    var randValUpper := maxRandVal - minRandVal;
    var at := 0;
    var i := 0;
    ghost var made: seq<Choice> := [];
    ghost var total := Mutation(draws, nMutations, nGenes, minRandVal, maxRandVal);
    while i < nMutations
      invariant 0 <= i <= nMutations && at <= |draws|
      invariant total == Choices(draws, at, nMutations - i, nGenes, minRandVal, maxRandVal, mutated, made)
      invariant pop[..] == Apply(old(pop[..]), offset, made)
    {
      at := SkipUsed(draws, at, nMutations - i, nGenes, minRandVal, maxRandVal, mutated, made);
      if at + 1 >= |draws| {
        ChoicesRunOut(draws, at, nMutations - i, nGenes, minRandVal, maxRandVal, mutated, made);
        return false;
      }
      var geneIdx := GeneDraw(draws[at], nGenes);
      ghost var c := Choice(geneIdx, ValueDraw(draws[at + 1], minRandVal, maxRandVal));
      ChoicesTake(draws, at, nMutations - i, nGenes, minRandVal, maxRandVal, mutated, made);
      ApplySnoc(old(pop[..]), offset, made, c);
      mutated := mutated + {geneIdx};
      Store(pop, offset + geneIdx, minRandVal + Times(draws[at + 1], randValUpper as real).Floor);
      made := made + [c];
      at := at + 2;
      i := i + 1;
    }
    ok := true;
  }

  /** The gene indices of a run, in order. */
  function Genes(cs: seq<Choice>): (gs: seq<int>)
    ensures |gs| == |cs| && forall i | 0 <= i < |cs| :: gs[i] == cs[i].gene
  {
    seq(|cs|, i requires 0 <= i < |cs| => cs[i].gene)
  }

  /** No index occurs twice. */
  predicate Distinct(gs: seq<int>)
  {
    forall i, j | 0 <= i < j < |gs| :: gs[i] != gs[j]
  }

  /** The genes written so far are exactly the used ones. */
  predicate Used(made: seq<Choice>, mutated: set<int>)
  {
    Distinct(Genes(made)) && forall i | 0 <= i < |made| :: made[i].gene in mutated
  }

  /** A run never writes a gene twice. */
  lemma {:induction false} ChoicesDistinct(draws: seq<real>, at: nat, n: nat, nGenes: nat, lo: int, hi: int, mutated: set<int>, made: seq<Choice>)
    requires Used(made, mutated)
    ensures Distinct(Genes(Choices(draws, at, n, nGenes, lo, hi, mutated, made).made))
    decreases |draws| - at
  {
    if n == 0 || at >= |draws| {
    } else if GeneDraw(draws[at], nGenes) in mutated {
      ChoicesDistinct(draws, at + 1, n, nGenes, lo, hi, mutated, made);
    } else if at + 1 < |draws| {
      var g := GeneDraw(draws[at], nGenes);
      var c := Choice(g, ValueDraw(draws[at + 1], lo, hi));
      assert Used(made + [c], mutated + {g});
      ChoicesDistinct(draws, at + 2, n - 1, nGenes, lo, hi, mutated + {g}, made + [c]);
    }
  }

  /** A run adds at most n writes, and exactly n when it completes. */
  lemma {:induction false} ChoicesCount(draws: seq<real>, at: nat, n: nat, nGenes: nat, lo: int, hi: int, mutated: set<int>, made: seq<Choice>)
    ensures |Choices(draws, at, n, nGenes, lo, hi, mutated, made).made| <= |made| + n
    ensures Choices(draws, at, n, nGenes, lo, hi, mutated, made).complete ==>
      |Choices(draws, at, n, nGenes, lo, hi, mutated, made).made| == |made| + n
    decreases |draws| - at
  {
    if n == 0 || at >= |draws| {
    } else if GeneDraw(draws[at], nGenes) in mutated {
      ChoicesCount(draws, at + 1, n, nGenes, lo, hi, mutated, made);
    } else if at + 1 < |draws| {
      var g := GeneDraw(draws[at], nGenes);
      ChoicesCount(draws, at + 2, n - 1, nGenes, lo, hi, mutated + {g}, made + [Choice(g, ValueDraw(draws[at + 1], lo, hi))]);
    }
  }

  /** Every write of mutate targets a gene in [0, nGenes), with a value in [minRandVal, maxRandVal) when that range is not empty. */
  predicate InRange(c: Choice, nGenes: nat, lo: int, hi: int)
  {
    0 <= c.gene < nGenes && (lo < hi ==> lo <= c.value < hi)
  }

  /** Writes added by a run are in range. */
  lemma {:induction false} ChoicesInRange(draws: seq<real>, at: nat, n: nat, nGenes: nat, lo: int, hi: int, mutated: set<int>, made: seq<Choice>)
    requires Draws(draws) && nGenes >= 1
    requires forall i | 0 <= i < |made| :: InRange(made[i], nGenes, lo, hi)
    ensures forall i | 0 <= i < |Choices(draws, at, n, nGenes, lo, hi, mutated, made).made| ::
      InRange(Choices(draws, at, n, nGenes, lo, hi, mutated, made).made[i], nGenes, lo, hi)
    decreases |draws| - at
  {
    if n == 0 || at >= |draws| {
    } else if GeneDraw(draws[at], nGenes) in mutated {
      ChoicesInRange(draws, at + 1, n, nGenes, lo, hi, mutated, made);
    } else if at + 1 < |draws| {
      var g := GeneDraw(draws[at], nGenes);
      var c := Choice(g, ValueDraw(draws[at + 1], lo, hi));
      assert InRange(c, nGenes, lo, hi) by {
        FloorOfDrawBelow(draws[at], nGenes);
        if lo < hi {
          FloorOfDrawBelow(draws[at + 1], hi - lo);
        }
      }
      assert forall i | 0 <= i < |made + [c]| :: InRange((made + [c])[i], nGenes, lo, hi);
      ChoicesInRange(draws, at + 2, n - 1, nGenes, lo, hi, mutated + {g}, made + [c]);
    }
  }

  /** The distinct elements of gs, counted. */
  lemma {:induction false} DistinctCard(gs: seq<int>)
    requires Distinct(gs)
    ensures |set x | x in gs| == |gs|
  {
    if gs != [] {
      var init := gs[..|gs| - 1];
      assert Distinct(init);
      DistinctCard(init);
      assert (set x | x in gs) == (set x | x in init) + {gs[|gs| - 1]};
    }
  }

  /** The indices 0, 1, ..., n - 1. */
  function Upto(n: nat): (s: seq<int>)
    ensures |s| == n && forall i | 0 <= i < n :: s[i] == i
  {
    seq(n, i requires 0 <= i < n => i)
  }

  /** Distinct indices below nGenes number at most nGenes. */
  lemma DistinctBelow(gs: seq<int>, nGenes: nat)
    requires Distinct(gs) && forall i | 0 <= i < |gs| :: 0 <= gs[i] < nGenes
    ensures |gs| <= nGenes
  {
    var s := set x | x in gs;
    var r := set x | x in Upto(nGenes);
    DistinctCard(gs);
    DistinctCard(Upto(nGenes));
    forall x | x in s
      ensures x in r
    {
      var i :| 0 <= i < |gs| && gs[i] == x;
      assert Upto(nGenes)[x] == x;
    }
    assert r == s + (r - s);
    assert |r| == |s| + |r - s|;
  }

  /** With nMutations > nGenes the retry loop can never finish: no supply of draws completes the run. */
  lemma MutateNeedsEnoughGenes(draws: seq<real>, n: nat, nGenes: nat, lo: int, hi: int)
    requires Draws(draws) && nGenes >= 1 && n > nGenes
    ensures !Mutation(draws, n, nGenes, lo, hi).complete
  {
    var made := Mutation(draws, n, nGenes, lo, hi).made;
    ChoicesDistinct(draws, 0, n, nGenes, lo, hi, {}, []);
    ChoicesCount(draws, 0, n, nGenes, lo, hi, {}, []);
    ChoicesInRange(draws, 0, n, nGenes, lo, hi, {}, []);
    DistinctBelow(Genes(made), nGenes);
  }

  /** A position no write targets keeps its value. */
  lemma {:induction false} ApplyUnchanged(p: seq<int>, offset: int, cs: seq<Choice>, k: int)
    requires 0 <= k < |p| && forall i | 0 <= i < |cs| :: offset + cs[i].gene != k
    ensures Apply(p, offset, cs)[k] == p[k]
  {
    if cs != [] {
      ApplyUnchanged(p, offset, cs[..|cs| - 1], k);
    }
  }

  /** With distinct genes, every write that lands in the buffer is the final value there. */
  lemma {:induction false} ApplyWritten(p: seq<int>, offset: int, cs: seq<Choice>, i: int)
    requires Distinct(Genes(cs)) && 0 <= i < |cs| && 0 <= offset + cs[i].gene < |p|
    ensures Apply(p, offset, cs)[offset + cs[i].gene] == cs[i].value
  {
    var init := cs[..|cs| - 1];
    if i < |cs| - 1 {
      assert Genes(init) == Genes(cs)[..|cs| - 1];
      ApplyWritten(p, offset, init, i);
    }
  }

  /**
   * The effect of a call of mutate on the buffer: only the candidate's slice
   * [offset, offset + nGenes) changes, each write's gene gets its value in
   * [minRandVal, maxRandVal), and the genes written are distinct, nMutations
   * of them when the run completes.
   */
  lemma MutateEffect(draws: seq<real>, p: seq<int>, offset: int, n: nat, nGenes: nat, lo: int, hi: int)
    requires Draws(draws) && nGenes >= 1 && lo < hi
    ensures var r := Mutation(draws, n, nGenes, lo, hi);
      && Distinct(Genes(r.made))
      && (r.complete ==> |r.made| == n)
      && (forall k | 0 <= k < |p| && !(offset <= k < offset + nGenes) :: Apply(p, offset, r.made)[k] == p[k])
      && (forall i | 0 <= i < |r.made| && 0 <= offset + r.made[i].gene < |p| ::
            offset <= offset + r.made[i].gene < offset + nGenes
            && Apply(p, offset, r.made)[offset + r.made[i].gene] == r.made[i].value
            && lo <= r.made[i].value < hi)
  {
    var r := Mutation(draws, n, nGenes, lo, hi);
    ChoicesDistinct(draws, 0, n, nGenes, lo, hi, {}, []);
    ChoicesCount(draws, 0, n, nGenes, lo, hi, {}, []);
    ChoicesInRange(draws, 0, n, nGenes, lo, hi, {}, []);
    forall k | 0 <= k < |p| && !(offset <= k < offset + nGenes)
      ensures Apply(p, offset, r.made)[k] == p[k]
    {
      ApplyUnchanged(p, offset, r.made, k);
    }
    forall i | 0 <= i < |r.made| && 0 <= offset + r.made[i].gene < |p|
      ensures Apply(p, offset, r.made)[offset + r.made[i].gene] == r.made[i].value
    {
      ApplyWritten(p, offset, r.made, i);
    }
  }

  // ---------------------------------------------------------------------------
  // crossover (crossover.js)

  /** Where gene g of the child is read from: parent 1's slice when the draw is below 0.5. */
  function Source(r: real, offset1: int, offset2: int): int
  {
    if r < 0.5 then offset1 else offset2
  }

  /** The buffer after the first g steps of crossover, each reading the current buffer. */
  function Crossed(p: seq<int>, draws: seq<real>, offset1: int, offset2: int, offset: int, g: nat): (q: seq<int>)
    requires g <= |draws|
    ensures |q| == |p|
  {
    if g == 0 then p
    else
      var q := Crossed(p, draws, offset1, offset2, offset, g - 1);
      Write(q, offset + g - 1, Read(q, Source(draws[g - 1], offset1, offset2) + g - 1))
  }

  /** crossover: child gene g is parent 1's or parent 2's gene g, chosen by draw g. */
  method Crossover(draws: seq<real>, pIdx1: int, pIdx2: int, offset: int, pop: array<int>, nGenes: nat)
    requires nGenes <= |draws|
    modifies pop
    ensures pop[..] == Crossed(old(pop[..]), draws, pIdx1 * nGenes, pIdx2 * nGenes, offset, nGenes)
  {
    var offset1 := pIdx1 * nGenes;
    var offset2 := pIdx2 * nGenes;
    var gIdx := 0;
    while gIdx < nGenes
      invariant 0 <= gIdx <= nGenes
      invariant pop[..] == Crossed(old(pop[..]), draws, offset1, offset2, offset, gIdx)
    {
      var v := Read(pop[..], (if draws[gIdx] < 0.5 then offset1 else offset2) + gIdx);
      if 0 <= offset + gIdx < pop.Length {
        pop[offset + gIdx] := v;
      }
      gIdx := gIdx + 1;
    }
  }

  /** A parent slice either is the child's slice or does not overlap it (true of candidate slices). */
  predicate Aligned(o: int, offset: int, nGenes: nat)
  {
    o == offset || o + nGenes <= offset || offset + nGenes <= o
  }

  /** Nothing outside the child's slice changes. */
  lemma {:induction false} CrossedFrame(p: seq<int>, draws: seq<real>, offset1: int, offset2: int, offset: int, g: nat, k: int)
    requires g <= |draws| && 0 <= k < |p| && !(offset <= k < offset + g)
    ensures Crossed(p, draws, offset1, offset2, offset, g)[k] == p[k]
  {
    if g > 0 {
      CrossedFrame(p, draws, offset1, offset2, offset, g - 1, k);
    }
  }

  /**
   * With aligned parent slices, after g steps child gene j < g holds the old
   * gene j of the parent its draw chose, and every other position keeps its
   * old value; this holds also when the child is one of the parents.
   */
  lemma {:induction false} CrossedInherits(p: seq<int>, draws: seq<real>, offset1: int, offset2: int, offset: int, g: nat, nGenes: nat, k: int)
    requires g <= nGenes <= |draws| && 0 <= k < |p|
    requires Aligned(offset1, offset, nGenes) && Aligned(offset2, offset, nGenes)
    ensures Crossed(p, draws, offset1, offset2, offset, g)[k] ==
      if offset <= k < offset + g then Read(p, Source(draws[k - offset], offset1, offset2) + (k - offset)) else p[k]
  {
    if g > 0 {
      var src := Source(draws[g - 1], offset1, offset2) + g - 1;
      CrossedInherits(p, draws, offset1, offset2, offset, g - 1, nGenes, k);
      if 0 <= src < |p| {
        CrossedInherits(p, draws, offset1, offset2, offset, g - 1, nGenes, src);
      }
    }
  }

  /** Two equal parents: the child becomes a copy of that parent. */
  lemma SameParentCopies(p: seq<int>, draws: seq<real>, offset1: int, offset: int, nGenes: nat, k: int)
    requires nGenes <= |draws| && Aligned(offset1, offset, nGenes) && offset <= k < offset + nGenes && 0 <= k < |p|
    ensures Crossed(p, draws, offset1, offset1, offset, nGenes)[k] == Read(p, offset1 + (k - offset))
  {
    CrossedInherits(p, draws, offset1, offset1, offset, nGenes, nGenes, k);
  }
}
