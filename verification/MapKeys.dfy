/** Which keys a JavaScript Map takes for one, and what setting a key a second time does. */
module MapKeys {
  import opened Machine
  import opened CborTree
  import opened Float64
  import opened TsTree
  import opened Simulation
  import Twins

  /** Keys read from the wire that fall together: equal texts once a byte-order mark is dropped, equal booleans,
      null, equal integers, floats that are equal or both zero or both no number, and a float with the integer it
      stands for, up to 2^53 - 1 in size. */
  predicate FallTogether(a: Value, b: Value) {
    match (a, b)
    case (Text(s), Text(t)) => StripBom(s) == StripBom(t)
    case (Bool(p), Bool(q)) => p == q
    case (Null, Null) => true
    case (Uint(m), Uint(n)) => m == n
    case (Int(m), Int(n)) => m == n
    case (Float(x), Float(y)) =>
      || x == y
      || (x in {0, 0x8000_0000_0000_0000} && y in {0, 0x8000_0000_0000_0000})
      || (NotANumber(x) && NotANumber(y))
    case (Float(x), Uint(n)) => n <= 0x1f_ffff_ffff_ffff && IsInteger(x) && IntOf(x) == n
    case (Uint(n), Float(x)) => n <= 0x1f_ffff_ffff_ffff && IsInteger(x) && IntOf(x) == n
    case (Float(x), Int(n)) => n >= -0x1f_ffff_ffff_ffff && IsInteger(x) && IntOf(x) == n
    case (Int(n), Float(x)) => n >= -0x1f_ffff_ffff_ffff && IsInteger(x) && IntOf(x) == n
    case _ => false
  }

  /** All exponent bits set and a fraction that is not zero. */
  predicate NotANumber(x: U64) {
    0x7ff0_0000_0000_0000 < x < 0x8000_0000_0000_0000 || 0xfff0_0000_0000_0000 < x
  }

  lemma NaNPatterns(x: U64)
    ensures IsNaN(x) <==> NotANumber(x)
  {
    Assembled(x);
  }

  lemma ZeroPatterns(x: U64)
    ensures x % P63 == 0 <==> x in {0, 0x8000_0000_0000_0000}
  {
  }

  /** The pattern of an integer within 2^53 - 1, against any other. */
  lemma PatternOf(x: U64, n: int)
    requires -MAX_SAFE <= n <= MAX_SAFE
    ensures SameKey(Number(x), Number(OfInt(n))) <==> IsInteger(x) && IntOf(x) == n
  {
    NaNPatterns(x);
    ZeroPatterns(x);
    PatternFacts(n);
    if IsInteger(x) {
      NumberBack(x);
      IntegerIsNumber(x);
    }
    NotNegativeZero();
    hide OfInt, IsInteger, IntOf, IsNaN;
  }

  lemma IntegerIsNumber(x: U64)
    requires IsInteger(x)
    ensures !IsNaN(x) && (IntOf(x) == 0 ==> x == 0 || x == NEG_ZERO)
  {
    SignOf(x);
    hide IntOf;
  }

  /** An integer's own pattern: its value is the integer, it is a number, and zero only for zero. */
  lemma PatternFacts(n: int)
    requires -MAX_SAFE <= n <= MAX_SAFE
    ensures IsInteger(OfInt(n)) && IntOf(OfInt(n)) == n && !IsNaN(OfInt(n))
    ensures OfInt(n) % P63 == 0 ==> n == 0 && OfInt(n) == 0
    ensures n == 0 ==> OfInt(n) == 0
  {
    OfNatExact(if n >= 0 then n else -n);
    ZeroReads();
    NotNegativeZero();
    if n < 0 {
      Twins.SignedBack(OfNat(-n));
    }
    IntegerIsNumber(OfInt(n));
    hide OfNat, IsInteger, Magnitude, IsNaN;
  }

  lemma SmallPattern(n: U64)
    ensures SmallInt(n) == if n <= MAX_SAFE then Number(OfInt(n)) else BigInt(n)
    ensures NegativeInt(n) == if -1 - n >= -MAX_SAFE then Number(OfInt(-1 - n)) else BigInt(-1 - n)
  {
    hide OfNat;
  }

  /** An integer as TypeScript holds it. */
  function Held(n: int): TsValue {
    if -MAX_SAFE <= n <= MAX_SAFE then Number(OfInt(n)) else BigInt(n)
  }

  lemma HeldInts(m: int, n: int)
    ensures SameKey(Held(m), Held(n)) <==> m == n
  {
    if -MAX_SAFE <= m <= MAX_SAFE {
      PatternFacts(m);
      if -MAX_SAFE <= n <= MAX_SAFE {
        PatternOf(OfInt(m), n);
      }
    }
    hide OfInt, IsInteger, IntOf, IsNaN;
  }

  lemma HeldAndFloat(x: U64, n: int)
    ensures SameKey(Number(x), Held(n)) <==> -MAX_SAFE <= n <= MAX_SAFE && IsInteger(x) && IntOf(x) == n
    ensures SameKey(Held(n), Number(x)) <==> -MAX_SAFE <= n <= MAX_SAFE && IsInteger(x) && IntOf(x) == n
  {
    if -MAX_SAFE <= n <= MAX_SAFE {
      PatternOf(x, n);
      Symmetric(x, OfInt(n));
    }
    hide OfInt, IsInteger, IntOf, IsNaN;
  }

  lemma Symmetric(x: U64, y: U64)
    ensures SameKey(Number(x), Number(y)) <==> SameKey(Number(y), Number(x))
  {
    hide IsNaN;
  }

  lemma FloatKeys(x: U64, y: U64)
    ensures SameKey(Number(x), Number(y)) <==> FallTogether(Float(x), Float(y))
  {
    NaNPatterns(x);
    NaNPatterns(y);
    ZeroPatterns(x);
    ZeroPatterns(y);
    hide IsNaN, NotANumber;
  }

  lemma KeyForm(v: Value)
    requires IsLeaf(v) && NormLeaf(v) == v
    ensures v.Uint? ==> ToTsLeaf(v) == Held(v.u)
    ensures v.Int? ==> v.i < 0 && ToTsLeaf(v) == Held(v.i)
  {
    if v.Uint? {
      SmallPattern(v.u);
    } else if v.Int? {
      SmallPattern(-1 - v.i);
    }
    hide SmallInt, NegativeInt, OfInt;
  }

  lemma LeafKeys(a: Value, b: Value)
    requires IsLeaf(a) && IsLeaf(b) && NormLeaf(a) == a && NormLeaf(b) == b
    ensures SameKey(ToTsLeaf(a), ToTsLeaf(b)) <==> FallTogether(a, b)
  {
    KeyForm(a);
    KeyForm(b);
    var m := if a.Uint? then a.u else if a.Int? then a.i else 0;
    var n := if b.Uint? then b.u else if b.Int? then b.i else 0;
    var x := if a.Float? then a.bits else if b.Float? then b.bits else 0;
    var y := if b.Float? then b.bits else 0;
    HeldInts(m, n);
    HeldAndFloat(x, m);
    HeldAndFloat(x, n);
    FloatKeys(x, y);
    NotOther(m);
    NotOther(n);
    hide Held, IsInteger, IntOf, IsNaN, NotANumber, StripBom, SmallInt, NegativeInt;
  }

  lemma NotOther(n: int)
    ensures Held(n).Number? || Held(n).BigInt?
  {
    hide OfInt;
  }

  /** Two keys of a decoded Go map are one key to a JavaScript Map exactly when they fall together; arrays, maps,
      tags and byte strings never do. */
  lemma KeysFallTogether(a: Value, b: Value)
    requires Norm(a) == a && Norm(b) == b
    ensures SameKey(ToTs(a), ToTs(b)) <==> FallTogether(a, b)
  {
    ToTsShape(a);
    ToTsShape(b);
    NormalLeaf(a);
    NormalLeaf(b);
    if IsLeaf(a) && IsLeaf(b) {
      hide ToTs, ToTsLeaf, SameKey, FallTogether, Norm;
      LeafKeys(a, b);
    } else {
      NeverKeys(a, b);
    }
  }

  lemma NormalLeaf(v: Value)
    requires Norm(v) == v
    ensures IsLeaf(v) ==> NormLeaf(v) == v
  {
    assert IsLeaf(v) ==> NormAll(Kids(v)) == [];
  }

  lemma NeverKeys(a: Value, b: Value)
    requires !(IsLeaf(a) && IsLeaf(b))
    ensures !SameKey(ToTs(a), ToTs(b)) && !FallTogether(a, b)
  {
    ToTsShape(a);
    ToTsShape(b);
    hide ToTs, ToTsLeaf, IsInteger, IntOf, NotANumber, IsNaN, StripBom;
  }

  // Setting a key.

  /** A key set a second time keeps its place and the form it was first given; only the value changes. */
  lemma {:induction false} SetAgain(es: seq<TsEntry>, k: TsValue, v: TsValue, i: nat)
    requires i < |es| && SameKey(es[i].key, k) && forall j | 0 <= j < i :: !SameKey(es[j].key, k)
    ensures MapSet(es, k, v) == es[i := TsEntry(es[i].key, v)]
  {
    hide SameKey;
    if i > 0 {
      assert forall j | 0 <= j < i - 1 :: es[1..][j] == es[j + 1];
      SetAgain(es[1..], k, v, i - 1);
      assert es == [es[0]] + es[1..];
    }
  }

  /** A new key goes to the end, negative zero as zero. */
  lemma {:induction false} SetNew(es: seq<TsEntry>, k: TsValue, v: TsValue)
    requires forall j | 0 <= j < |es| :: !SameKey(es[j].key, k)
    ensures MapSet(es, k, v)
         == es + [TsEntry(if k == Number(0x8000_0000_0000_0000) then Number(0) else k, v)]
  {
    hide SameKey;
    if es != [] {
      assert forall j | 0 <= j < |es[1..]| :: es[1..][j] == es[j + 1];
      SetNew(es[1..], k, v);
      assert es == [es[0]] + es[1..];
    }
  }

  /** One leading byte-order mark goes, and nothing else. */
  lemma BomDropped(s: seq<Byte>)
    ensures StripBom([0xef, 0xbb, 0xbf] + s) == s
    ensures !(|s| >= 3 && s[0] == 0xef && s[1] == 0xbb && s[2] == 0xbf) ==> StripBom(s) == s
  {
    var t := [0xef, 0xbb, 0xbf] + s;
    assert t[..3] == [0xef, 0xbb, 0xbf] && t[3..] == s;
    if |s| >= 3 {
      assert s[..3] == [s[0], s[1], s[2]];
    }
  }
}
