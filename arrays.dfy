/**
 * arrays.js: the dtype strings the engine accepts, the typed-array
 * constructor a dtype string names, and the element counts of the buffer
 * allocators. index.ts carries its own copy of the allocators
 * (index.ts:122-131), modelled here beside them.
 */
module Arrays {
  import opened Wrappers

  /** The eight element kinds of the `DTYPES` set. */
  datatype Kind = F64 | F32 | U32 | U16 | U8 | I32 | I16 | I8

  /** `DTYPES` (arrays.js:28). */
  const DTYPES: set<string> := {"f64", "f32", "u32", "u16", "u8", "i32", "i16", "i8"}

  function KindName(k: Kind): string
  {
    match k
    case F64 => "f64" case F32 => "f32"
    case U32 => "u32" case U16 => "u16" case U8 => "u8"
    case I32 => "i32" case I16 => "i16" case I8 => "i8"
  }

  /** The kind a member of DTYPES names; None for any other string. */
  function KindOf(dtype: string): (r: Option<Kind>)
    ensures r.Some? <==> dtype in DTYPES
    ensures r.Some? ==> KindName(r.value) == dtype
  {
    if dtype == "f64" then Some(F64) else if dtype == "f32" then Some(F32)
    else if dtype == "u32" then Some(U32) else if dtype == "u16" then Some(U16)
    else if dtype == "u8" then Some(U8) else if dtype == "i32" then Some(I32)
    else if dtype == "i16" then Some(I16) else if dtype == "i8" then Some(I8)
    else None
  }

  /** Width in bits of an element. */
  function Bits(k: Kind): nat
  {
    match k
    case F64 => 64
    case F32 | U32 | I32 => 32
    case U16 | I16 => 16
    case U8 | I8 => 8
  }

  // ---------------------------------------------------------------------------
  // getConst (arrays.js:10-24)

  /**
   * String.prototype.toLowerCase, restricted to ASCII letters; the full
   * Unicode mapping (which can change the length) is not modelled.
   */
  function LowerChar(c: char): char
  {
    if 'A' <= c <= 'Z' then (c as int + 32) as char else c
  }

  function Lower(s: string): (r: string)
    ensures |r| == |s|
  {
    seq(|s|, i requires 0 <= i < |s| => LowerChar(s[i]))
  }

  lemma LowerIdempotent(s: string)
    ensures Lower(Lower(s)) == Lower(s)
  {
    assert forall i | 0 <= i < |s| :: LowerChar(LowerChar(s[i])) == LowerChar(s[i]);
  }

  /** The alternative of /8|16|32|64/ that matches at position `p`, tried in that order. */
  function WidthAt(s: string, p: nat): Option<nat>
    requires p < |s|
  {
    if s[p] == '8' then Some(8)
    else if p + 1 < |s| && s[p..p + 2] == "16" then Some(16)
    else if p + 1 < |s| && s[p..p + 2] == "32" then Some(32)
    else if p + 1 < |s| && s[p..p + 2] == "64" then Some(64)
    else None
  }

  /** `bitRegex.exec(s)[0]` searching from position `from`: the leftmost match. */
  function FirstWidth(s: string, from: nat): (r: Option<nat>)
    decreases |s| - from
    ensures r.Some? ==> r.value in {8, 16, 32, 64}
    ensures r.None? <==> forall p | from <= p < |s| :: WidthAt(s, p).None?
    ensures r.Some? ==> exists p | from <= p < |s| :: WidthAt(s, p) == r && forall q | from <= q < p :: WidthAt(s, q).None?
  {
    if from >= |s| then None
    else if WidthAt(s, from).Some? then WidthAt(s, from)
    else FirstWidth(s, from + 1)
  }

  datatype Family = Float | Int | Uint

  /** The constructor getConst evaluates, `${Family}${nBits}Array`. */
  datatype Ctor = Ctor(family: Family, nBits: nat)

  datatype ConstError =
    | NullMatch                   // `bitRegex.exec(dtype)` is null and `[0]` throws a TypeError
    | Unrecognised(dtype: string) // the explicit 'unrecognised dtype' error
    | NotDefined(ctor: Ctor)      // `eval` of a name with no such global throws a ReferenceError

  /**
   * The typed-array constructors the global scope defines: Float32Array,
   * Float64Array and the 8-, 16- and 32-bit integer arrays. There is no
   * Float8Array, Int64Array or Uint64Array (the 64-bit integer arrays are
   * BigInt64Array and BigUint64Array), and no Float16Array either.
   */
  predicate Defined(c: Ctor)
  {
    if c.family == Float then c.nBits in {32, 64} else c.nBits in {8, 16, 32}
  }

  /** getConst; evaluating a name with no global of that name throws. */
  function GetConst(dtype: string): (r: Result<Ctor, ConstError>)
    decreases if Lower(dtype) == dtype then 0 else 1
    ensures r.Ok? ==> Defined(r.value)
    ensures r.Err? && r.error.NotDefined? ==> !Defined(r.error.ctor)
  {
    if Lower(dtype) != dtype then
      LowerIdempotent(dtype);
      GetConst(Lower(dtype))
    else
      match FirstWidth(dtype, 0)
      case None => Err(NullMatch)
      case Some(n) =>
        var c :=
          if |dtype| > 0 && dtype[0] == 'f' then Some(Ctor(Float, n))
          else if |dtype| > 0 && dtype[0] == 'i' then Some(Ctor(Int, n))
          else if |dtype| > 0 && dtype[0] == 'u' then Some(Ctor(Uint, n))
          else None;
        if c.None? then Err(Unrecognised(dtype))
        else if Defined(c.value) then Ok(c.value)
        else Err(NotDefined(c.value))
  }

  /** A constructor getConst resolves is exactly the one of some member of DTYPES. */
  lemma DefinedAreDtypes(c: Ctor)
    ensures Defined(c) <==> exists k :: c == Ctor(FamilyOf(k), Bits(k))
  {
    if Defined(c) {
      var k :=
        match c.family
        case Float => if c.nBits == 32 then F32 else F64
        case Int => if c.nBits == 8 then I8 else if c.nBits == 16 then I16 else I32
        case Uint => if c.nBits == 8 then U8 else if c.nBits == 16 then U16 else U32;
      assert c == Ctor(FamilyOf(k), Bits(k));
    }
  }

  /** Example: 'i64' passes the pattern and the prefix test, but there is no Int64Array. */
  lemma GetConstMissingInt64()
    ensures GetConst("i64") == Err(NotDefined(Ctor(Int, 64)))
  {
    assert Lower("i64") == "i64";
    assert WidthAt("i64", 1) == Some(64) by { assert "i64"[1..3] == "64"; }
    assert FirstWidth("i64", 0) == Some(64);
  }

  /** Example: 'f8' passes the pattern and the prefix test, but there is no Float8Array. */
  lemma GetConstMissingFloat8()
    ensures GetConst("f8") == Err(NotDefined(Ctor(Float, 8)))
  {
    assert Lower("f8") == "f8";
    assert FirstWidth("f8", 0) == Some(8);
  }

  /** getConst ignores case: a string and its lower-case form resolve alike. */
  lemma GetConstIgnoresCase(s: string)
    ensures GetConst(s) == GetConst(Lower(s))
  {
    LowerIdempotent(s);
  }

  function FamilyOf(k: Kind): Family
  {
    match k
    case F64 | F32 => Float
    case U32 | U16 | U8 => Uint
    case I32 | I16 | I8 => Int
  }

  /** Every member of DTYPES is lower case and names its own width first. */
  lemma FirstWidthOfDtype(k: Kind)
    ensures Lower(KindName(k)) == KindName(k)
    ensures FirstWidth(KindName(k), 0) == Some(Bits(k))
  {
    var s := KindName(k);
    assert Lower(s) == s;
    assert WidthAt(s, 0).None?;
    if Bits(k) == 8 {
      assert WidthAt(s, 1) == Some(8);
    } else {
      assert s[1..3] == if Bits(k) == 16 then "16" else if Bits(k) == 32 then "32" else "64";
      assert WidthAt(s, 1) == Some(Bits(k));
    }
    assert FirstWidth(s, 0) == FirstWidth(s, 1);
  }

  /** Every member of DTYPES resolves to the constructor of its own family and width. */
  lemma GetConstOfDtypes(k: Kind)
    ensures GetConst(KindName(k)) == Ok(Ctor(FamilyOf(k), Bits(k)))
  {
    FirstWidthOfDtype(k);
  }

  /** A lower-case string with no width in it fails on the null match, whatever its prefix. */
  lemma NoWidthIsNullMatch(s: string)
    requires Lower(s) == s && FirstWidth(s, 0).None?
    ensures GetConst(s) == Err(NullMatch)
  {
  }

  /** Example: 'x16' has a width but no known prefix, so it is rejected explicitly. */
  lemma GetConstUnknownPrefix()
    ensures GetConst("x16") == Err(Unrecognised("x16"))
  {
    assert Lower("x16") == "x16";
    assert WidthAt("x16", 1) == Some(16);
  }

  /** Example: 'U8' is lower-cased first and accepted as 'u8'. */
  lemma GetConstUpperCase()
    ensures GetConst("U8") == Ok(Ctor(Uint, 8))
  {
    assert Lower("U8") == "u8";
    GetConstOfDtypes(U8);
  }

  /** Example: 'i' has no width, so the match itself fails. */
  lemma GetConstNoWidth()
    ensures GetConst("i") == Err(NullMatch)
  {
    assert Lower("i") == "i";
  }

  // ---------------------------------------------------------------------------
  // Buffer allocators (arrays.js:29-36 and index.ts:122-131)

  function BytesPerElement(k: Kind): nat
  {
    Bits(k) / 8
  }

  /** Bytes of the ArrayBuffer each arrays.js allocator reserves for n elements. */
  function AllocBytesJs(k: Kind, n: nat): nat
  {
    match k
    case F32 => 4 * n
    case F64 => 8 * n
    case I32 | U32 => 4 * n
    case I16 | U16 | I8 | U8 => 4 * n
  }

  /** Bytes of the ArrayBuffer each index.ts allocator reserves for n elements. */
  function AllocBytesTs(k: Kind, n: nat): nat
  {
    match k
    case F32 => 4 * n
    case F64 => 8 * n
    case I32 | U32 => 4 * n
    case I16 | U16 => 2 * n
    case I8 | U8 => n
  }

  /** Element count of the typed array over the arrays.js buffer. */
  function ElementsJs(k: Kind, n: nat): nat
  {
    AllocBytesJs(k, n) / BytesPerElement(k)
  }

  /** Element count of the typed array over the index.ts buffer. */
  function ElementsTs(k: Kind, n: nat): nat
  {
    AllocBytesTs(k, n) / BytesPerElement(k)
  }

  /** The arrays.js allocators: 32/64-bit kinds get n elements, 16-bit kinds 2n, 8-bit kinds 4n. */
  lemma ElementsJsCounts(k: Kind, n: nat)
    ensures Bits(k) >= 32 ==> ElementsJs(k, n) == n
    ensures Bits(k) == 16 ==> ElementsJs(k, n) == 2 * n
    ensures Bits(k) == 8 ==> ElementsJs(k, n) == 4 * n
  {
  }

  /** The index.ts allocators give exactly n elements for every kind. */
  lemma ElementsTsExact(k: Kind, n: nat)
    ensures ElementsTs(k, n) == n
  {
  }
}
