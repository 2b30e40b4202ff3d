/** Fixed points of the model: values whose bytes, patterns, places and errors are written out. */
module Landmarks {
  import opened Machine
  import opened CborTree
  import opened Encoder
  import opened Grammar
  import opened Parser
  import opened Float64
  import opened TsTree
  import opened Simulation
  import opened Twins
  import opened SelfEcho
  import Codec

  // Appendix A of RFC 8949.

  lemma LeafItem(v: Value)
    requires IsLeaf(v)
    ensures Enc(v) == EncFrame(Leaf(v))
  {
    hide EncFrame;
    assert Kids(v) == [] && EncAll([]) == [] && FrameOf(v) == Leaf(v);
  }

  lemma SmallHeads()
    ensures Head(0, 0) == [0x00]
    ensures Head(0, 1) == [0x01]
    ensures Head(0, 10) == [0x0a]
    ensures Head(0, 23) == [0x17]
    ensures Head(1, 0) == [0x20]
    ensures Head(1, 9) == [0x29]
    ensures Head(3, 1) == [0x61]
    ensures Head(2, 4) == [0x44]
    ensures Head(4, 3) == [0x83]
    ensures Head(5, 2) == [0xa2]
    ensures Head(6, 0) == [0xc0]
  {
  }

  lemma OneByteHeads()
    ensures Head(0, 24) == [0x18, 0x18]
    ensures Head(0, 25) == [0x18, 0x19]
    ensures Head(0, 100) == [0x18, 0x64]
    ensures Head(1, 99) == [0x38, 0x63]
  {
    Bytes1(24);
    Bytes1(25);
    Bytes1(99);
    Bytes1(100);
    hide BigEndian;
  }

  lemma TwoByteHeads()
    ensures Head(0, 1000) == [0x19, 0x03, 0xe8]
    ensures Head(1, 999) == [0x39, 0x03, 0xe7]
  {
    Bytes2(999);
    Bytes2(1000);
    hide BigEndian;
  }

  lemma FourByteHead()
    ensures Head(0, 1000000) == [0x1a, 0x00, 0x0f, 0x42, 0x40]
  {
    Bytes4(1000000);
    hide BigEndian;
  }

  lemma EightByteHead()
    ensures Head(0, 1000000000000) == [0x1b, 0x00, 0x00, 0x00, 0xe8, 0xd4, 0xa5, 0x10, 0x00]
  {
    Bytes8(1000000000000);
    Bytes4(232);
    hide BigEndian;
  }

  lemma LargestHead()
    ensures Head(0, 18446744073709551615) == [0x1b, 0xff, 0xff, 0xff, 0xff, 0xff, 0xff, 0xff, 0xff]
  {
    Bytes8(18446744073709551615);
    Bytes4(4294967295);
    hide BigEndian;
  }

  lemma Bytes1(n: nat)
    ensures BigEndian(n, 1) == [n % 256]
  {
    assert BigEndian(n / 256, 0) == [];
  }

  lemma Bytes2(n: nat)
    ensures BigEndian(n, 2) == [n / 256 % 256, n % 256]
  {
    Bytes1(n / 256);
    hide *;
    NextByte(n, 2);
  }

  lemma NextByte(n: nat, w: nat)
    requires w > 0
    ensures BigEndian(n, w) == BigEndian(n / 256, w - 1) + [n % 256]
  {
  }

  lemma Bytes4(n: nat)
    ensures BigEndian(n, 4) == [n / 256 / 256 / 256 % 256, n / 256 / 256 % 256, n / 256 % 256, n % 256]
  {
    Bytes2(n / 256 / 256);
    hide *;
    NextByte(n, 4);
    NextByte(n / 256, 3);
  }

  lemma Bytes8(n: nat)
    ensures BigEndian(n, 8)
         == BigEndian(n / 256 / 256 / 256 / 256, 4)
            + [n / 256 / 256 / 256 % 256, n / 256 / 256 % 256, n / 256 % 256, n % 256]
  {
    hide *;
    NextByte(n, 8);
    NextByte(n / 256, 7);
    NextByte(n / 256 / 256, 6);
    NextByte(n / 256 / 256 / 256, 5);
  }

  /** Items of that appendix: integers, simple values, strings, an array, a map and a tag. */
  lemma IntegerVectors()
    ensures Enc(Uint(1)) == [0x01] && Enc(Uint(10)) == [0x0a] && Enc(Uint(23)) == [0x17]
    ensures Enc(Int(-1)) == [0x20] && Enc(Int(-10)) == [0x29]
  {
    SmallHeads();
    LeafItem(Uint(1));
    LeafItem(Uint(10));
    LeafItem(Uint(23));
    LeafItem(Int(-1));
    LeafItem(Int(-10));
    hide Head, Enc;
  }

  lemma SimpleVectors()
    ensures Enc(Bool(false)) == [0xf4] && Enc(Bool(true)) == [0xf5] && Enc(Null) == [0xf6]
  {
    LeafItem(Bool(false));
    LeafItem(Bool(true));
    LeafItem(Null);
    hide Enc;
  }

  lemma TextVector()
    ensures Enc(Text([0x61])) == [0x61, 0x61]
  {
    SmallHeads();
    LeafItem(Text([0x61]));
    hide Head, Enc;
  }

  lemma BytesVector()
    ensures Enc(Bytes([0x01, 0x02, 0x03, 0x04])) == [0x44, 0x01, 0x02, 0x03, 0x04]
  {
    SmallHeads();
    LeafItem(Bytes([0x01, 0x02, 0x03, 0x04]));
    hide Head, Enc;
  }

  lemma ArrayVector()
    ensures Enc(Array([Uint(1), Uint(10), Uint(23)])) == [0x83, 0x01, 0x0a, 0x17]
  {
    SmallHeads();
    IntegerVectors();
    var ks := [Uint(1), Uint(10), Uint(23)];
    assert EncFrame(FrameOf(Array(ks))) == Head(4, 3);
    hide Head, Enc, EncAll, Kids, EncFrame, FrameOf;
    ContainerItem(Array(ks), ks);
    Listed3(Uint(1), Uint(10), Uint(23));
  }

  lemma MapVector()
    ensures Enc(Map([Entry(Uint(1), Uint(10)), Entry(Uint(23), Null)])) == [0xa2, 0x01, 0x0a, 0x17, 0xf6]
  {
    hide *;
    TwoEntries(Entry(Uint(1), Uint(10)), Entry(Uint(23), Null));
    IntegerVectors();
    SimpleVectors();
    SmallHeads();
  }

  lemma TwoEntries(d: Entry, e: Entry)
    ensures Enc(Map([d, e])) == Head(5, 2) + (Enc(d.key) + Enc(d.val) + Enc(e.key) + Enc(e.val))
  {
    MapLead([d, e]);
    TwoPairs(d, e);
    hide *;
    ContainerItem(Map([d, e]), [d.key, d.val, e.key, e.val]);
    Listed4(d.key, d.val, e.key, e.val);
  }

  lemma MapLead(es: seq<Entry>)
    ensures EncFrame(FrameOf(Map(es))) == Head(5, |es|)
  {
  }

  lemma TagVector()
    ensures Enc(Tag(0, Uint(1))) == [0xc0, 0x01]
  {
    SmallHeads();
    IntegerVectors();
    assert EncFrame(FrameOf(Tag(0, Uint(1)))) == Head(6, 0);
    hide Head, Enc, EncAll, Kids, EncFrame, FrameOf;
    ContainerItem(Tag(0, Uint(1)), [Uint(1)]);
    Listed1(Uint(1));
  }

  lemma ContainerItem(v: Value, ks: seq<Value>)
    requires (v.Array? && v.items == ks) || (v.Map? && Flatten(v.entries) == ks) || (v.Tag? && [v.inner] == ks)
    ensures Enc(v) == EncFrame(FrameOf(v)) + EncAll(ks)
  {
    assert Kids(v) == ks;
    hide EncFrame, EncAll, FrameOf, Kids;
  }

  lemma TwoPairs(d: Entry, e: Entry)
    ensures Flatten([d, e]) == [d.key, d.val, e.key, e.val]
  {
    assert [d, e][1..] == [e] && [e][1..] == [] && Flatten([e]) == [e.key, e.val];
  }

  lemma Listed1(a: Value)
    ensures EncAll([a]) == Enc(a)
  {
    EncAllSingle(a);
  }

  lemma Listed3(a: Value, b: Value, c: Value)
    ensures EncAll([a, b, c]) == Enc(a) + Enc(b) + Enc(c)
  {
    hide Enc, EncAll;
    EncAllAppend([a, b], [c]);
    EncAllPair(a, b);
    EncAllSingle(c);
    assert [a, b] + [c] == [a, b, c];
  }

  lemma Listed4(a: Value, b: Value, c: Value, d: Value)
    ensures EncAll([a, b, c, d]) == Enc(a) + Enc(b) + Enc(c) + Enc(d)
  {
    hide Enc, EncAll;
    EncAllAppend([a, b, c], [d]);
    Listed3(a, b, c);
    EncAllSingle(d);
    assert [a, b, c] + [d] == [a, b, c, d];
  }

  // Numbers.

  /** The patterns of 1, 2, 2^53, -4, 1.5, the infinities and a NaN. */
  lemma FloatPatterns()
    ensures OfNat(1) == 0x3ff0_0000_0000_0000 && OfNat(2) == 0x4000_0000_0000_0000
    ensures OfNat(0x20_0000_0000_0000) == 0x4340_0000_0000_0000
  {
    Powers();
    LogUnique(1, 0);
    LogUnique(2, 1);
    OfNatTop();
    hide Pow2, Log2, RoundShift;
  }

  lemma MinusFour()
    ensures IsInteger(0xc010_0000_0000_0000) && IntOf(0xc010_0000_0000_0000) == -4
  {
    Powers();
    Float64.Fields(0x401, 0);
    hide Pow2, Exponent, Fraction;
  }

  lemma OneAndAHalf()
    ensures !IsInteger(0x3ff8_0000_0000_0000)
  {
    Powers();
    Float64.Fields(0x3ff, 0x8_0000_0000_0000);
    hide Pow2, Exponent, Fraction;
  }

  lemma Specials()
    ensures !IsInteger(0x7ff0_0000_0000_0000) && !IsInteger(0xfff0_0000_0000_0000) && !IsInteger(0x7ff8_0000_0000_0000)
    ensures IsNaN(0x7ff8_0000_0000_0000) && !IsNaN(0x7ff0_0000_0000_0000) && !IsNaN(0)
  {
    Float64.Fields(0x7ff, 0);
    Float64.Fields(0x7ff, 0x8_0000_0000_0000);
    Float64.Fields(0, 0);
    hide Pow2, Exponent, Fraction;
  }

  lemma Powers()
    ensures Pow2(0) == 1 && Pow2(1) == 2 && Pow2(50) == 0x4_0000_0000_0000 && Pow2(51) == 0x8_0000_0000_0000
    ensures Pow2(52) == 0x10_0000_0000_0000
  {
    Pow2Values();
    PowNext(50);
    PowNext(51);
    assert Pow2(0) == 1 && Pow2(1) == 2;
    hide Pow2;
  }

  /** Up to 2^53 no two integers share a pattern; 2^53 + 1 shares one with 2^53. This is what safe means. */
  lemma SafeIntegers(m: nat, n: nat)
    requires m <= 0x20_0000_0000_0000 && n <= 0x20_0000_0000_0000 && OfNat(m) == OfNat(n)
    ensures m == n
  {
    OfNatExact(m);
    OfNatExact(n);
    hide OfNat, Magnitude;
  }

  lemma FirstUnsafe()
    ensures OfNat(0x20_0000_0000_0001) == OfNat(0x20_0000_0000_0000)
    ensures MAX_SAFE == 0x20_0000_0000_0000 - 1
  {
    var n := 2 * P52 + 1;
    Pow2Values();
    Powers();
    OfNatTop();
    LogUnique(n, 53);
    RoundedForm(n);
    hide OfNat, Log2, Pow2;
  }

  /** Beyond binary64 lies infinity. */
  lemma ToInfinity(n: nat)
    requires n >= Pow2(1024)
    ensures OfNat(n) == 0x7ff0_0000_0000_0000
  {
    Pow2Gap(0, 1024);
    if Log2(n) < 1024 {
      Pow2Gap(Log2(n), 1024);
    }
    Pow2Gap(52, 1024);
    hide Pow2;
  }

  /** What TypeScript makes of an integer of 64 bits on the wire: a number up to 2^53 - 1 in size, and a
      bigint beyond. */
  lemma NumberOrBigInt(rt: Runtime, n: int)
    requires -0x1_0000_0000_0000_0000 <= n < 0x1_0000_0000_0000_0000
    ensures TsDecode(rt, IntHead(n))
         == Ok(if -0x1f_ffff_ffff_ffff <= n <= 0x1f_ffff_ffff_ffff then Number(OfInt(n)) else BigInt(n))
  {
    var t := BigInt(n);
    IntegerPlain(rt, n);
    hide TsDecode, IntHead, TsSized, TsTextOk, TsHeight, TsEnc;
    ReadsItself(rt, t);
    EchoInteger(n);
  }

  lemma IntegerPlain(rt: Runtime, n: int)
    ensures TsEnc(BigInt(n)) == IntHead(n) && TsSized(BigInt(n)) && TsTextOk(rt, BigInt(n)) && TsHeight(BigInt(n)) == 0
    ensures DEPTH_LIMIT >= 0
  {
    assert TsEncAll([]) == [] && TsKids(BigInt(n)) == [] && TsSizedAll([]) && TsTextOkAll(rt, []);
    hide IntHead;
  }

  lemma EchoInteger(n: int)
    requires -0x1_0000_0000_0000_0000 <= n < 0x1_0000_0000_0000_0000
    ensures TsEcho(BigInt(n))
         == if -0x1f_ffff_ffff_ffff <= n <= 0x1f_ffff_ffff_ffff then Number(OfInt(n)) else BigInt(n)
  {
    EchoParts(BigInt(n));
    hide TsEcho, OfNat;
    assert TsKids(BigInt(n)) == [];
  }
}
