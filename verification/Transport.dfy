/** What a JavaScript number becomes on the Go side: exactly which integers and which coordinates
    survive, and what the others turn into. */
module Transport {
  import opened Machine
  import opened CborTree
  import opened Encoder
  import opened Grammar
  import opened Parser
  import opened Float64
  import opened TsTree
  import opened Simulation
  import opened Fields
  import Twins

  /** Go's reading of an integer written by TypeScript, whatever its size: the low 64 bits of the
      argument, refused when negative beyond int64. */
  lemma IntegerOnWire(rt: Runtime, n: int)
    ensures n >= 0 ==> Decode(rt, IntHead(n)) == Ok(Uint(WireArg(n)))
    ensures n < 0 && WireArg(n) <= MAX_I64 ==> Decode(rt, IntHead(n)) == Ok(Int(-1 - WireArg(n)))
    ensures n < 0 && WireArg(n) > MAX_I64 ==> Decode(rt, IntHead(n)) == Err(NegativeOutOfRange)
  {
    var major, arg, b := if n >= 0 then 0 else 1, WireArg(n), IntHead(n);
    HeadReads(major, if n >= 0 then n else -1 - n);
    hide Head, HeadForm;
    HeadParses(rt, major, arg, b, []);
    assert b + [] == b;
    IntegerDecodes(rt, major, arg, b);
  }

  lemma IntegerDecodes(rt: Runtime, major: Major, arg: U64, b: seq<Byte>)
    requires (major == 0 || major == 1) && |b| >= 1
    requires ParseFrame(rt, b) == ParseBody(rt, major, arg, b, |b|)
    ensures major == 0 ==> Decode(rt, b) == Ok(Uint(arg))
    ensures major == 1 && arg <= MAX_I64 ==> Decode(rt, b) == Ok(Int(-1 - arg))
    ensures major == 1 && arg > MAX_I64 ==> Decode(rt, b) == Err(NegativeOutOfRange)
  {
    hide ParseFrame;
    if major == 0 || arg <= MAX_I64 {
      var v := if major == 0 then Uint(arg) else Int(-1 - arg);
      EmptyList(rt, b[|b|..], 1);
      ParseOf(rt, b, 0, Leaf(v), |b|, [], 0);
    }
  }

  /** The integers on which the decoders part: TypeScript reads the low 64 bits as a bigint, Go refuses. */
  lemma OnlyTypeScriptReads(rt: Runtime, n: int)
    requires !Twins.IntReadable(n)
    ensures TsDecode(rt, IntHead(n)) == Ok(BigInt(-1 - WireArg(n))) && Wide(rt, IntHead(n), 0)
    ensures Decode(rt, IntHead(n)) == Err(NegativeOutOfRange)
    ensures n >= -TWO_64 ==> -1 - WireArg(n) == n
  {
    var arg, b := WireArg(n), IntHead(n);
    IntegerOnWire(rt, n);
    HeadReads(1, -1 - n);
    ReadArgComplete(1, arg, b, []);
    assert b + [] == b;
    hide IntHead, HeadForm, Decode, ReadArg, TsReadArg;
    WideLead(rt, arg, b, |b|);
    hide TsParseFrame, WideFrame, NegativeInt;
    TsParseOf(rt, b, 0, TsLeaf(NegativeInt(arg)), |b|);
    TsParseAllStep(rt, b[|b|..], 1, 0);
  }

  function IntegerOf(v: Value): Option<int> {
    match v
    case Uint(u) => Some(u)
    case Int(i) => Some(i)
    case _ => None
  }

  /** An integer TypeScript writes survives exactly when it is in the range of int64 or of uint64. */
  lemma IntegersThatSurvive(rt: Runtime, n: int)
    ensures Decode(rt, IntHead(n)).Ok? && IntegerOf(Decode(rt, IntHead(n)).value) == Some(n) <==> Twins.IntInRange(n)
  {
    IntegerOnWire(rt, n);
    hide Decode, IntHead;
  }

  // Coordinates: a float sent as an integer when it is one.

  /** What Go's float reader makes of a number TypeScript wrote. */
  function GoFloat(rt: Runtime, bits: U64): Result<U64> {
    var v :- Decode(rt, TsEnc(Number(bits)));
    AsF64(v)
  }

  lemma NumberBytes(bits: U64)
    ensures TsEnc(Number(bits)) == TsLead(Number(bits))
  {
    assert TsEncAll([]) == [];
    assert TsKids(Number(bits)) == [];
  }

  lemma FractionReads(rt: Runtime, bits: U64)
    requires !IsInteger(bits)
    ensures GoFloat(rt, bits) == Ok(bits)
  {
    NumberBytes(bits);
    hide IsInteger, Decode;
    LeafSendable(rt, Float(bits));
    EncFloat(bits);
    Delivered(rt, Float(bits), 0);
  }

  lemma EncFloat(bits: U64)
    ensures Enc(Float(bits)) == [0xfb] + BigEndian(bits, 8)
  {
    assert EncAll([]) == [];
    hide BigEndian;
  }

  lemma IntegerReads(rt: Runtime, bits: U64)
    requires IsInteger(bits)
    ensures var n := IntOf(bits);
            GoFloat(rt, bits) == if n < 0 && WireArg(n) > MAX_I64 then Err(NegativeOutOfRange)
                                 else Ok(if n >= 0 then OfNat(WireArg(n)) else OfInt(-1 - WireArg(n)))
  {
    NumberBytes(bits);
    IntegerOnWire(rt, IntOf(bits));
    hide Decode, IntHead, TsEnc, OfNat, OfInt, IntOf, IsInteger, WireArg;
  }

  lemma PositiveSurvives(bits: U64, n: int)
    requires n > 0 && bits < P63 && IsInteger(bits) && Magnitude(bits) == n
    ensures OfNat(WireArg(n)) == bits <==> Twins.IntInRange(n)
    ensures bits != NEG_ZERO
  {
    hide IsInteger, Magnitude, OfNat;
    if n < TWO_64 {
      IntegerRecovered(bits);
    } else {
      WrappedIntegerDiffers(bits);
    }
  }

  lemma IntegersSurvive(rt: Runtime, bits: U64)
    requires IsInteger(bits)
    ensures GoFloat(rt, bits) == Ok(bits) <==> bits != NEG_ZERO && Twins.IntInRange(IntOf(bits))
  {
    hide *;
    IntegerReads(rt, bits);
    SignOf(bits);
    SmallWireArgs();
    var n := IntOf(bits);
    if n > 0 {
      UnsignedValue(bits);
      PositiveSurvives(bits, n);
    } else if n < 0 {
      NegativeSurvives(bits, n);
      NegativeZeroIsNot(bits);
    } else {
      ZeroReads();
    }
  }

  lemma UnsignedValue(bits: U64)
    requires IsInteger(bits) && bits < P63
    ensures Magnitude(bits) == IntOf(bits)
  {
  }

  lemma NegativeZeroIsNot(bits: U64)
    requires IsInteger(bits) && IntOf(bits) < 0
    ensures bits != NEG_ZERO
  {
    Float64.Fields(0, 0);
  }

  lemma SmallWireArgs()
    ensures WireArg(0) == 0 && Twins.IntInRange(0)
  {
  }

  /** A number sent by TypeScript is read by Go as the same number exactly when it is not negative zero
      and is not an integer outside int64 and uint64. The others are read as another number or refused. */
  lemma NumbersThatSurvive(rt: Runtime, bits: U64)
    ensures GoFloat(rt, bits) == Ok(bits)
        <==> bits != NEG_ZERO && (IsInteger(bits) ==> Twins.IntInRange(IntOf(bits)))
  {
    hide *;
    NotNegativeZero();
    if IsInteger(bits) {
      IntegersSurvive(rt, bits);
    } else {
      FractionReads(rt, bits);
    }
  }

  lemma NegativeSurvives(bits: U64, n: int)
    requires n < 0 && bits >= P63 && IsInteger(bits - P63) && Magnitude(bits - P63) == -n
    ensures WireArg(n) <= MAX_I64 ==> (OfInt(-1 - WireArg(n)) == bits <==> Twins.IntInRange(n))
    ensures WireArg(n) > MAX_I64 ==> !Twins.IntInRange(n)
  {
    var a := WireArg(n);
    hide IsInteger, Magnitude, OfNat;
    if -n < TWO_64 {
      IntegerRecovered(bits - P63);
    } else if a <= MAX_I64 {
      OfNatBound(a + 1);
      HugeExponent(bits - P63);
    }
  }
}
