/** Two quantities of a decoding run: how much memory it reserves on the word of the input, and how
    long the canonical encoding of what it read is. */
module Costs {
  import opened Machine
  import opened CborTree
  import opened Encoder
  import opened Grammar
  import opened Parser

  /** What reading a frame allocates: bytes copied, array slots or map pairs reserved. */
  function Slots(f: Frame): nat {
    match f
    case Leaf(Text(t)) => |t|
    case Leaf(Bytes(d)) => |d|
    case ArrayOf(n) => n
    case MapOf(n) => n
    case _ => 0
  }

  /** Everything allocated while reading one item, whether the read succeeds or not. */
  function Reserve(rt: Runtime, s: seq<Byte>, depth: int): nat
    decreases |s|, 0, 0
  {
    if depth > DEPTH_LIMIT || ParseFrame(rt, s).Err? then 0
    else
      var (f, k) := ParseFrame(rt, s).value;
      Slots(f) + ReserveAll(rt, s[k..], depth + 1, Arity(f))
  }

  function ReserveAll(rt: Runtime, s: seq<Byte>, depth: int, count: nat): nat
    decreases |s|, 1, count
  {
    if count == 0 then 0
    else
      Reserve(rt, s, depth) +
      if Parse(rt, s, depth).Ok? then ReserveAll(rt, s[Parse(rt, s, depth).value.1..], depth, count - 1) else 0
  }

  /** Nesting levels left at a depth. */
  function Levels(depth: int): nat {
    if depth > DEPTH_LIMIT then 0 else DEPTH_LIMIT + 1 - depth
  }

  lemma SlotsBound(rt: Runtime, s: seq<Byte>)
    requires ParseFrame(rt, s).Ok?
    ensures var (f, k) := ParseFrame(rt, s).value;
            if f.Leaf? then Slots(f) < k else Slots(f) <= |s| - k && Slots(f) <= Arity(f)
  {
    hide ReadArg;
  }

  lemma {:induction false} ReserveWhenOk(rt: Runtime, s: seq<Byte>, depth: int)
    requires Parse(rt, s, depth).Ok?
    ensures Reserve(rt, s, depth) < Parse(rt, s, depth).value.1
    decreases |s|, 0, 0
  {
    hide ParseFrame, Parse, ParseAll, ReserveAll, Slots, Arity;
    var f, k, kids, m := ParseStep(rt, s, depth);
    ReserveAllWhenOk(rt, s[k..], depth + 1, Arity(f));
    SlotsBound(rt, s);
    LeafArity(f);
  }

  lemma LeafArity(f: Frame)
    ensures f.Leaf? ==> Arity(f) == 0
  {
  }

  lemma ReserveAllStep(rt: Runtime, s: seq<Byte>, depth: int, count: nat)
    ensures ReserveAll(rt, s, depth, 0) == 0
    ensures count > 0 && Parse(rt, s, depth).Err? ==> ReserveAll(rt, s, depth, count) == Reserve(rt, s, depth)
    ensures count > 0 && Parse(rt, s, depth).Ok? ==>
      var n := Parse(rt, s, depth).value.1;
      ReserveAll(rt, s, depth, count) == Reserve(rt, s, depth) + ReserveAll(rt, s[n..], depth, count - 1)
  {
    hide Parse, Reserve;
  }

  lemma {:induction false} ReserveAllWhenOk(rt: Runtime, s: seq<Byte>, depth: int, count: nat)
    requires ParseAll(rt, s, depth, count).Ok?
    ensures ReserveAll(rt, s, depth, count) + count <= ParseAll(rt, s, depth, count).value.1
    decreases |s|, 1, count
  {
    hide *;
    ReserveAllStep(rt, s, depth, count);
    if count == 0 {
      EmptyList(rt, s, depth);
    } else {
      var v, n, vs, m := ParseAllStep(rt, s, depth, count);
      ReserveWhenOk(rt, s, depth);
      ReserveAllWhenOk(rt, s[n..], depth, count - 1);
    }
  }

  lemma {:induction false} ReserveBound(rt: Runtime, s: seq<Byte>, depth: int)
    ensures Reserve(rt, s, depth) <= |s| * Levels(depth)
    decreases |s|, 0, 0
  {
    hide ParseFrame, Parse, ParseAll, ReserveAll, Slots, Arity;
    if depth <= DEPTH_LIMIT && ParseFrame(rt, s).Ok? {
      var (f, k) := ParseFrame(rt, s).value;
      ReserveAllBound(rt, s[k..], depth + 1, Arity(f));
      SlotsBound(rt, s);
      LevelStep(|s|, k, Levels(depth + 1));
    }
  }

  lemma LevelStep(size: nat, k: nat, levels: nat)
    requires 1 <= k <= size
    ensures size + (size - k) * levels <= size * (levels + 1)
  {
    assert size * levels - (size - k) * levels == k * levels;
  }

  lemma {:induction false} ReserveAllBound(rt: Runtime, s: seq<Byte>, depth: int, count: nat)
    ensures ReserveAll(rt, s, depth, count) <= |s| * Levels(depth)
    decreases |s|, 1, count
  {
    hide *;
    ReserveAllStep(rt, s, depth, count);
    if count > 0 {
      ReserveBound(rt, s, depth);
      if Parse(rt, s, depth).Ok? {
        var n := Parse(rt, s, depth).value.1;
        ReserveWhenOk(rt, s, depth);
        ReserveAllBound(rt, s[n..], depth, count - 1);
        OkDepth(rt, s, depth);
        RestLevels(|s|, n, Levels(depth));
      }
    }
  }

  lemma RestLevels(size: nat, n: nat, levels: nat)
    requires n <= size && levels >= 1
    ensures n + (size - n) * levels <= size * levels
  {
    assert size * levels - (size - n) * levels == n * levels;
  }

  lemma OkDepth(rt: Runtime, s: seq<Byte>, depth: int)
    requires Parse(rt, s, depth).Ok?
    ensures Levels(depth) >= 1
  {
  }

  /** One decoding call reserves at most 65 times the input, and less than the input when it succeeds. */
  lemma ReservationBound(rt: Runtime, b: seq<Byte>)
    ensures Reserve(rt, b, 0) <= 65 * |b|
    ensures Decode(rt, b).Ok? ==> Reserve(rt, b, 0) < |b|
  {
    hide Parse, Reserve;
    ReserveBound(rt, b, 0);
    if Decode(rt, b).Ok? {
      ReserveWhenOk(rt, b, 0);
    }
  }

  // What the total is.

  /** Bytes of strings, slots of arrays and pairs of maps in a tree. */
  function Footprint(v: Value): nat
    decreases Size(v)
  {
    (match v
     case Text(s) => |s|
     case Bytes(d) => |d|
     case Array(items) => |items|
     case Map(entries) => |entries|
     case _ => 0)
    + FootprintAll(Kids(v))
  }

  function FootprintAll(vs: seq<Value>): nat
    decreases SizeAll(vs)
  {
    if vs == [] then 0 else Footprint(vs[0]) + FootprintAll(vs[1..])
  }

  lemma FootprintBuild(f: Frame, kids: seq<Value>)
    requires Proper(f) && |kids| == Arity(f)
    ensures Footprint(Build(f, kids)) == Slots(f) + FootprintAll(kids)
  {
    var v := Build(f, kids);
    KidsBuild(f, kids);
    assert Footprint(v) == Slots(f) + FootprintAll(Kids(v)) by {
      hide FootprintAll, Kids, Build;
    }
    hide *;
  }

  lemma ReserveStep(rt: Runtime, s: seq<Byte>, depth: int, f: Frame, k: nat)
    requires depth <= DEPTH_LIMIT && ParseFrame(rt, s) == Ok((f, k)) && k <= |s|
    ensures Reserve(rt, s, depth) == Slots(f) + ReserveAll(rt, s[k..], depth + 1, Arity(f))
  {
    hide ParseFrame, ReserveAll, Slots, Arity;
  }

  lemma FootprintCons(v: Value, vs: seq<Value>)
    ensures FootprintAll([v] + vs) == Footprint(v) + FootprintAll(vs)
  {
    hide Footprint;
    assert ([v] + vs)[1..] == vs;
  }

  /** A successful read reserves exactly what the tree it returns takes up. */
  lemma {:induction false} ReserveIsFootprint(rt: Runtime, s: seq<Byte>, depth: int)
    requires Parse(rt, s, depth).Ok?
    ensures Reserve(rt, s, depth) == Footprint(Parse(rt, s, depth).value.0)
    decreases |s|, 0, 0
  {
    hide *;
    var f, k, kids, m := ParseStep(rt, s, depth);
    ReserveStep(rt, s, depth, f, k);
    ReserveAllIsFootprint(rt, s[k..], depth + 1, Arity(f));
    FootprintBuild(f, kids);
  }

  lemma {:induction false} ReserveAllIsFootprint(rt: Runtime, s: seq<Byte>, depth: int, count: nat)
    requires ParseAll(rt, s, depth, count).Ok?
    ensures ReserveAll(rt, s, depth, count) == FootprintAll(ParseAll(rt, s, depth, count).value.0)
    decreases |s|, 1, count
  {
    hide *;
    ReserveAllStep(rt, s, depth, count);
    if count == 0 {
      EmptyList(rt, s, depth);
      FootprintNone();
    } else {
      var v, n, vs, m := ParseAllStep(rt, s, depth, count);
      ReserveIsFootprint(rt, s, depth);
      ReserveAllIsFootprint(rt, s[n..], depth, count - 1);
      FootprintCons(v, vs);
    }
  }

  lemma FootprintNone()
    ensures FootprintAll([]) == 0
  {
  }

  /** A decoding that succeeds reserves what its value takes up. */
  lemma DecodeReserves(rt: Runtime, b: seq<Byte>)
    requires Decode(rt, b).Ok?
    ensures Reserve(rt, b, 0) == Footprint(Decode(rt, b).value)
  {
    hide Parse, Reserve, Footprint;
    ReserveIsFootprint(rt, b, 0);
  }

  /** The items read before a failure, and the item that failed, have reserved theirs. */
  lemma {:induction false} ReserveAllPrefix(rt: Runtime, s: seq<Byte>, depth: int, count: nat, j: nat)
    requires j <= count && ParseAll(rt, s, depth, j).Ok?
    ensures var (vs, m) := ParseAll(rt, s, depth, j).value;
            ReserveAll(rt, s, depth, count) == FootprintAll(vs) + ReserveAll(rt, s[m..], depth, count - j)
    decreases j
  {
    hide *;
    if j == 0 {
      EmptyList(rt, s, depth);
      FootprintNone();
      assert s[0..] == s;
    } else {
      var v, n, vs, m := ParseAllStep(rt, s, depth, j);
      ReserveIsFootprint(rt, s, depth);
      ReserveAllStep(rt, s, depth, count);
      ReserveAllPrefix(rt, s[n..], depth, count - 1, j - 1);
      FootprintCons(v, vs);
      assert s[n..][m..] == s[n + m..];
    }
  }

  lemma HeadFrame(rt: Runtime, major: Major, n: nat, p: seq<Byte>, rest: seq<Byte>)
    requires HeadForm(major, n, p) && n <= |rest|
    ensures major == 2 ==> ParseFrame(rt, p + rest) == Ok((Leaf(Bytes(rest[..n])), |p| + n))
    ensures major == 3 && rt.utf8(rest[..n]) ==> ParseFrame(rt, p + rest) == Ok((Leaf(Text(rest[..n])), |p| + n))
    ensures major == 4 ==> ParseFrame(rt, p + rest) == Ok((ArrayOf(n), |p|))
    ensures major == 5 ==> ParseFrame(rt, p + rest) == Ok((MapOf(n), |p|))
    ensures (p + rest)[|p|..] == rest
  {
    if major != 7 {
      assert (p + rest)[|p|..|p| + n] == rest[..n];
      hide HeadForm, ParseFrame;
      HeadParses(rt, major, n, p, rest);
    }
  }

  lemma HeadReserves(rt: Runtime, major: Major, n: nat, p: seq<Byte>, rest: seq<Byte>, depth: int)
    requires HeadForm(major, n, p) && n <= |rest| && depth <= DEPTH_LIMIT
    ensures major == 2 ==> Reserve(rt, p + rest, depth) == n
    ensures major == 3 && rt.utf8(rest[..n]) ==> Reserve(rt, p + rest, depth) == n
    ensures major == 4 ==> Reserve(rt, p + rest, depth) == n + ReserveAll(rt, rest, depth + 1, n)
    ensures major == 5 ==> Reserve(rt, p + rest, depth) == n + ReserveAll(rt, rest, depth + 1, 2 * n)
  {
    var s := p + rest;
    hide HeadForm, ParseFrame, ReserveAll, Reserve;
    HeadFrame(rt, major, n, p, rest);
    if major == 4 {
      ReserveStep(rt, s, depth, ArrayOf(n), |p|);
    } else if major == 5 {
      ReserveStep(rt, s, depth, MapOf(n), |p|);
    } else if major == 2 || (major == 3 && rt.utf8(rest[..n])) {
      ReserveStep(rt, s, depth, Leaf(if major == 2 then Bytes(rest[..n]) else Text(rest[..n])), |p| + n);
      ReserveNone(rt, s[|p| + n..], depth + 1);
    }
  }

  lemma ReserveNone(rt: Runtime, s: seq<Byte>, depth: int)
    ensures ReserveAll(rt, s, depth, 0) == 0
  {
  }

  /** A string within its length check reserves its length, whatever follows; a text must be valid. */
  lemma StringReserves(rt: Runtime, n: nat, p: seq<Byte>, rest: seq<Byte>, depth: int)
    requires n <= |rest| && depth <= DEPTH_LIMIT
    ensures HeadForm(2, n, p) ==> Reserve(rt, p + rest, depth) == n
    ensures HeadForm(3, n, p) && rt.utf8(rest[..n]) ==> Reserve(rt, p + rest, depth) == n
  {
    hide HeadForm, Reserve;
    if HeadForm(2, n, p) {
      HeadReserves(rt, 2, n, p, rest, depth);
    }
    if HeadForm(3, n, p) {
      HeadReserves(rt, 3, n, p, rest, depth);
    }
  }

  lemma ItemsReserve(rt: Runtime, s: seq<Byte>, depth: int, count: nat, j: nat)
    requires j <= count && ParseAll(rt, s, depth, j).Ok?
    ensures var (vs, m) := ParseAll(rt, s, depth, j).value;
            && ReserveAll(rt, s, depth, count) >= FootprintAll(vs)
            && (j < count && Parse(rt, s[m..], depth).Err? ==>
                  ReserveAll(rt, s, depth, count) == FootprintAll(vs) + Reserve(rt, s[m..], depth))
  {
    hide *;
    ReserveAllPrefix(rt, s, depth, count, j);
    ReserveAllStep(rt, s[ParseAll(rt, s, depth, j).value.1..], depth, count - j);
  }

  /** An array's head that passes its length check reserves a slot for every item announced, whatever follows.
      To them come what the items read take up, and exactly what the next one had reserved if it fails. */
  lemma ArrayReserves(rt: Runtime, n: nat, p: seq<Byte>, rest: seq<Byte>, depth: int, j: nat)
    requires HeadForm(4, n, p) && n <= |rest| && depth <= DEPTH_LIMIT
    requires j <= n && ParseAll(rt, rest, depth + 1, j).Ok?
    ensures var (vs, m) := ParseAll(rt, rest, depth + 1, j).value;
            && Reserve(rt, p + rest, depth) >= n + FootprintAll(vs)
            && (j < n && Parse(rt, rest[m..], depth + 1).Err? ==>
                  Reserve(rt, p + rest, depth) == n + FootprintAll(vs) + Reserve(rt, rest[m..], depth + 1))
  {
    hide HeadForm, ParseAll, Parse, Reserve, ReserveAll, FootprintAll;
    HeadReserves(rt, 4, n, p, rest, depth);
    ItemsReserve(rt, rest, depth + 1, n, j);
  }

  /** And a map's head a pair for every entry announced. */
  lemma MapReserves(rt: Runtime, n: nat, p: seq<Byte>, rest: seq<Byte>, depth: int, j: nat)
    requires HeadForm(5, n, p) && n <= |rest| && depth <= DEPTH_LIMIT
    requires j <= 2 * n && ParseAll(rt, rest, depth + 1, j).Ok?
    ensures var (vs, m) := ParseAll(rt, rest, depth + 1, j).value;
            && Reserve(rt, p + rest, depth) >= n + FootprintAll(vs)
            && (j < 2 * n && Parse(rt, rest[m..], depth + 1).Err? ==>
                  Reserve(rt, p + rest, depth) == n + FootprintAll(vs) + Reserve(rt, rest[m..], depth + 1))
  {
    hide HeadForm, ParseAll, Parse, Reserve, ReserveAll, FootprintAll;
    HeadReserves(rt, 5, n, p, rest, depth);
    ItemsReserve(rt, rest, depth + 1, 2 * n, j);
  }

  /** A tag's head reserves nothing of its own. */
  lemma TagReserves(rt: Runtime, num: nat, p: seq<Byte>, rest: seq<Byte>, depth: int)
    requires HeadForm(6, num, p) && depth <= DEPTH_LIMIT
    ensures Reserve(rt, p + rest, depth) == Reserve(rt, rest, depth + 1)
  {
    hide HeadForm, ParseFrame, ReserveAll, Reserve;
    HeadParses(rt, 6, num, p, rest);
    assert (p + rest)[|p|..] == rest;
    ReserveStep(rt, p + rest, depth, TagOf(num), |p|);
    ReserveAllStep(rt, rest, depth + 1, 1);
    if Parse(rt, rest, depth + 1).Ok? {
      ReserveNone(rt, rest[Parse(rt, rest, depth + 1).value.1..], depth + 1);
    }
    hide Parse;
  }

  /** Nor does a head that is refused. */
  lemma RefusedReservesNothing(rt: Runtime, s: seq<Byte>, depth: int)
    requires depth > DEPTH_LIMIT || ParseFrame(rt, s).Err?
    ensures Reserve(rt, s, depth) == 0
  {
    hide ParseFrame;
  }

  // Length of the canonical form.

  /** How many 32-bit floats an accepted item holds. */
  function Narrow(rt: Runtime, s: seq<Byte>, depth: int): nat
    requires Parse(rt, s, depth).Ok?
    decreases |s|, 0, 0
  {
    var (f, k) := ParseFrame(rt, s).value;
    (if s[0] == 0xfa then 1 else 0) + NarrowAll(rt, s[k..], depth + 1, Arity(f))
  }

  function NarrowAll(rt: Runtime, s: seq<Byte>, depth: int, count: nat): nat
    requires ParseAll(rt, s, depth, count).Ok?
    decreases |s|, 1, count
  {
    if count == 0 then 0
    else Narrow(rt, s, depth) + NarrowAll(rt, s[Parse(rt, s, depth).value.1..], depth, count - 1)
  }

  /** The encoder's head is never longer than a head the decoder reads the same argument from. */
  lemma HeadShortest(major: Major, s: seq<Byte>)
    requires s != [] && ReadArg(s, s[0] % 32).Ok?
    ensures var (n, k) := ReadArg(s, s[0] % 32).value; |Head(major, n)| <= k
  {
    var low := s[0] % 32;
    if low >= 24 {
      var w := if low == 24 then 1 else if low == 25 then 2 else if low == 26 then 4 else 8;
      FieldBound(s[1..1 + w]);
    }
  }

  lemma FrameShortest(rt: Runtime, s: seq<Byte>)
    requires ParseFrame(rt, s).Ok?
    ensures var (f, k) := ParseFrame(rt, s).value; |EncFrame(f)| <= k + if s[0] == 0xfa then 4 else 0
  {
    var major := s[0] / 32;
    if major != 7 {
      HeadShortest(major, s);
      hide ReadArg, Head;
    }
  }

  lemma {:induction false} EncodingShortest(rt: Runtime, s: seq<Byte>, depth: int)
    requires Parse(rt, s, depth).Ok?
    ensures |Enc(Parse(rt, s, depth).value.0)| <= Parse(rt, s, depth).value.1 + 4 * Narrow(rt, s, depth)
    decreases |s|, 0, 0
  {
    hide ParseFrame, Parse, ParseAll, NarrowAll, EncFrame, EncAll, Arity, Build, FrameOf, Kids;
    var f, k, kids, m := ParseStep(rt, s, depth);
    EncodingAllShortest(rt, s[k..], depth + 1, Arity(f));
    FrameShortest(rt, s);
    KidsBuild(f, kids);
  }

  lemma NarrowAllStep(rt: Runtime, s: seq<Byte>, depth: int, count: nat, v: Value, n: nat, vs: seq<Value>, m: nat)
    requires count > 0 && ParseAll(rt, s, depth, count).Ok?
    requires Parse(rt, s, depth) == Ok((v, n)) && n <= |s|
    requires ParseAll(rt, s[n..], depth, count - 1) == Ok((vs, m))
    ensures NarrowAll(rt, s, depth, count) == Narrow(rt, s, depth) + NarrowAll(rt, s[n..], depth, count - 1)
    ensures EncAll([v] + vs) == Enc(v) + EncAll(vs)
  {
    hide Parse, ParseAll, Narrow, Enc;
    assert ([v] + vs)[1..] == vs;
  }

  lemma {:induction false} EncodingAllShortest(rt: Runtime, s: seq<Byte>, depth: int, count: nat)
    requires ParseAll(rt, s, depth, count).Ok?
    ensures |EncAll(ParseAll(rt, s, depth, count).value.0)|
         <= ParseAll(rt, s, depth, count).value.1 + 4 * NarrowAll(rt, s, depth, count)
    decreases |s|, 1, count
  {
    hide *;
    if count == 0 {
      EmptyList(rt, s, depth);
      EncNothing();
    } else {
      var v, n, vs, m := ParseAllStep(rt, s, depth, count);
      EncodingShortest(rt, s, depth);
      EncodingAllShortest(rt, s[n..], depth, count - 1);
      NarrowAllStep(rt, s, depth, count, v, n, vs, m);
    }
  }

  function Floats(v: Value): nat
    decreases Size(v)
  {
    (if v.Float? then 1 else 0) + FloatsAll(Kids(v))
  }

  function FloatsAll(vs: seq<Value>): nat
    decreases SizeAll(vs)
  {
    if vs == [] then 0 else Floats(vs[0]) + FloatsAll(vs[1..])
  }

  lemma NarrowStep(rt: Runtime, s: seq<Byte>, depth: int, f: Frame, k: nat, kids: seq<Value>, m: nat)
    requires Parse(rt, s, depth).Ok? && ParseFrame(rt, s) == Ok((f, k)) && k <= |s|
    requires ParseAll(rt, s[k..], depth + 1, Arity(f)) == Ok((kids, m)) && |kids| == Arity(f) && Proper(f)
    ensures s != [] && Narrow(rt, s, depth)
         == (if s[0] == 0xfa then 1 else 0) + NarrowAll(rt, s[k..], depth + 1, Arity(f))
    ensures Floats(Build(f, kids)) == (if f.Leaf? && f.v.Float? then 1 else 0) + FloatsAll(kids)
    ensures s[0] == 0xfa ==> k == 5 && f.Leaf? && f.v.Float?
  {
    NarrowHead(rt, s);
    KidsBuild(f, kids);
    hide ParseFrame, ParseAll, NarrowAll, FloatsAll, Parse, Kids;
  }

  lemma NarrowHead(rt: Runtime, s: seq<Byte>)
    requires ParseFrame(rt, s).Ok?
    ensures s != [] && (s[0] == 0xfa ==> ParseFrame(rt, s).value.1 == 5 && ParseFrame(rt, s).value.0.Leaf?
                                         && ParseFrame(rt, s).value.0.v.Float?)
  {
  }

  /** Each 32-bit float is a float of the value and takes five bytes, so there are no more than either allows. */
  lemma {:induction false} NarrowBound(rt: Runtime, s: seq<Byte>, depth: int)
    requires Parse(rt, s, depth).Ok?
    ensures Narrow(rt, s, depth) <= Floats(Parse(rt, s, depth).value.0)
    ensures 5 * Narrow(rt, s, depth) <= Parse(rt, s, depth).value.1
    decreases |s|, 0, 0
  {
    hide *;
    var f, k, kids, m := ParseStep(rt, s, depth);
    NarrowStep(rt, s, depth, f, k, kids, m);
    NarrowAllBound(rt, s[k..], depth + 1, Arity(f));
  }

  lemma {:induction false} NarrowAllBound(rt: Runtime, s: seq<Byte>, depth: int, count: nat)
    requires ParseAll(rt, s, depth, count).Ok?
    ensures NarrowAll(rt, s, depth, count) <= FloatsAll(ParseAll(rt, s, depth, count).value.0)
    ensures 5 * NarrowAll(rt, s, depth, count) <= ParseAll(rt, s, depth, count).value.1
    decreases |s|, 1, count
  {
    hide *;
    if count == 0 {
      EmptyList(rt, s, depth);
      NarrowNone(rt, s, depth);
    } else {
      var v, n, vs, m := ParseAllStep(rt, s, depth, count);
      NarrowBound(rt, s, depth);
      NarrowAllBound(rt, s[n..], depth, count - 1);
      NarrowAllStep(rt, s, depth, count, v, n, vs, m);
      FloatsCons(v, vs);
    }
  }

  lemma NarrowNone(rt: Runtime, s: seq<Byte>, depth: int)
    ensures ParseAll(rt, s, depth, 0).Ok? && NarrowAll(rt, s, depth, 0) == 0
  {
  }

  lemma FloatsCons(v: Value, vs: seq<Value>)
    ensures FloatsAll([v] + vs) == Floats(v) + FloatsAll(vs)
  {
    hide Floats;
    assert ([v] + vs)[1..] == vs;
  }

  /** So re-encoding a payload that holds no float, or none of 32 bits, never lengthens it. */
  lemma LengthWithoutFloats(rt: Runtime, b: seq<Byte>)
    requires Decode(rt, b).Ok?
    ensures |Enc(Decode(rt, b).value)| <= |b| + 4 * Floats(Decode(rt, b).value)
    ensures 5 * |Enc(Decode(rt, b).value)| <= 9 * |b|
  {
    CanonicalLength(rt, b);
    NarrowBound(rt, b, 0);
    hide Parse, Narrow, Floats, Enc;
  }

  lemma EncNothing()
    ensures EncAll([]) == []
  {
  }

  /** Re-encoding an accepted payload never lengthens it, beyond 4 bytes for each 32-bit float. */
  lemma CanonicalLength(rt: Runtime, b: seq<Byte>)
    requires Decode(rt, b).Ok?
    ensures Parse(rt, b, 0).Ok?
    ensures |Enc(Decode(rt, b).value)| <= |b| + 4 * Narrow(rt, b, 0)
  {
    hide Parse, Narrow, Enc;
    EncodingShortest(rt, b, 0);
  }
}
