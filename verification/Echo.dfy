/** What survives a trip through the other side: when a Map keeps every entry it is given, and exactly which
    Go trees come back from TypeScript. */
module Echo {
  import opened Machine
  import opened CborTree
  import opened Encoder
  import opened Parser
  import opened Float64
  import opened TsTree
  import opened Simulation
  import opened Twins
  import Codec

  // A Map that has kept every entry it was given.

  ghost predicate Separate(ks: seq<TsValue>) {
    forall i, j | 0 <= i < j < |ks| :: !SameKey(ks[i], ks[j])
  }

  /** Keys and values as the Map stores them. */
  function Stored(kvs: seq<TsValue>): seq<TsValue>
    decreases |kvs|
  {
    if |kvs| < 2 then [] else [StoredKey(kvs[0]), kvs[1]] + Stored(kvs[2..])
  }

  lemma {:induction false} MapSetGrows(es: seq<TsEntry>, k: TsValue, v: TsValue)
    requires |MapSet(es, k, v)| == |es| + 1
    ensures forall i | 0 <= i < |es| :: !SameKey(es[i].key, k)
    ensures MapSet(es, k, v) == es + [TsEntry(StoredKey(k), v)]
  {
    if es != [] {
      hide SameKey, StoredKey;
      MapSetGrows(es[1..], k, v);
      assert forall i | 1 <= i < |es| :: es[i] == es[1..][i - 1];
    }
  }

  lemma {:induction false} SetAllAtMost(es: seq<TsEntry>, kvs: seq<TsValue>)
    ensures |SetAll(es, kvs)| <= |es| + |kvs| / 2
    decreases |kvs|
  {
    if |kvs| >= 2 {
      hide MapSet;
      SetAllAtMost(MapSet(es, kvs[0], kvs[1]), kvs[2..]);
    }
  }

  lemma StoredSame(k: TsValue, x: TsValue)
    ensures SameKey(StoredKey(k), x) <==> SameKey(k, x)
    ensures SameKey(x, StoredKey(k)) <==> SameKey(x, k)
  {
    Float64.Fields(0, 0);
    assert !IsNaN(0) && !IsNaN(NEG_ZERO);
    hide IsNaN;
  }

  /** Replacing a key by its stored form, next to keys already known to differ from it. */
  lemma SeparateSwap(front: seq<TsValue>, k: TsValue, rest: seq<TsValue>)
    requires Separate(front + [StoredKey(k)] + rest)
    ensures Separate(front + [k] + rest)
  {
    hide SameKey, StoredKey;
    var was, now := front + [StoredKey(k)] + rest, front + [k] + rest;
    forall i, j | 0 <= i < j < |now|
      ensures !SameKey(now[i], now[j])
    {
      assert !SameKey(was[i], was[j]);
      StoredSame(k, now[j]);
      StoredSame(k, now[i]);
    }
  }

  lemma SetAllOne(es: seq<TsEntry>, kvs: seq<TsValue>)
    requires |kvs| >= 2
    ensures SetAll(es, kvs) == SetAll(MapSet(es, kvs[0], kvs[1]), kvs[2..])
    ensures EvenItems(kvs) == [kvs[0]] + EvenItems(kvs[2..])
    ensures Stored(kvs) == [StoredKey(kvs[0]), kvs[1]] + Stored(kvs[2..])
    ensures |MapSet(es, kvs[0], kvs[1])| <= |es| + 1
  {
    hide MapSet, StoredKey;
  }

  /** A Map with as many entries as it was given keys has kept them all, in order, and they are separate. */
  lemma {:induction false} FullMap(es: seq<TsEntry>, kvs: seq<TsValue>)
    requires |kvs| % 2 == 0 && |SetAll(es, kvs)| == |es| + |kvs| / 2 && Separate(KeysOf(es))
    ensures TsFlatten(SetAll(es, kvs)) == TsFlatten(es) + Stored(kvs)
    ensures Separate(KeysOf(es) + EvenItems(kvs))
    decreases |kvs|
  {
    if |kvs| < 2 {
      assert KeysOf(es) + [] == KeysOf(es);
      assert TsFlatten(es) + [] == TsFlatten(es);
    } else {
      SetAllOne(es, kvs);
      var e, rest := TsEntry(StoredKey(kvs[0]), kvs[1]), kvs[2..];
      hide *;
      SetAllAtMost(MapSet(es, kvs[0], kvs[1]), rest);
      MapSetGrows(es, kvs[0], kvs[1]);
      KeysSnoc(es, e);
      SeparateGrows(es, kvs[0]);
      FullMap(es + [e], rest);
      SeparateSwap(KeysOf(es), kvs[0], EvenItems(rest));
      Regrouped(KeysOf(es), [kvs[0]], EvenItems(rest));
      Regrouped(TsFlatten(es), [e.key, e.val], Stored(rest));
    }
  }

  lemma Regrouped(a: seq<TsValue>, b: seq<TsValue>, c: seq<TsValue>)
    ensures a + b + c == a + (b + c)
  {
  }

  lemma SeparateSnoc(ks: seq<TsValue>, x: TsValue)
    requires Separate(ks) && forall i | 0 <= i < |ks| :: !SameKey(ks[i], x)
    ensures Separate(ks + [x])
  {
    hide SameKey;
  }

  lemma SeparateGrows(es: seq<TsEntry>, k: TsValue)
    requires Separate(KeysOf(es)) && forall i | 0 <= i < |es| :: !SameKey(es[i].key, k)
    ensures Separate(KeysOf(es) + [StoredKey(k)])
  {
    KeysAt(es);
    hide SameKey, StoredKey, KeysOf, Separate;
    forall i | 0 <= i < |es|
      ensures !SameKey(KeysOf(es)[i], StoredKey(k))
    {
      StoredSame(k, es[i].key);
    }
    SeparateSnoc(KeysOf(es), StoredKey(k));
  }

  ghost predicate NoNegativeZeros(ks: seq<TsValue>) {
    forall i | 0 <= i < |ks| :: ks[i] != Number(NEG_ZERO)
  }

  lemma {:induction false} StoredAsIs(kvs: seq<TsValue>)
    requires |kvs| % 2 == 0 && NoNegativeZeros(EvenItems(kvs))
    ensures Stored(kvs) == kvs
    decreases |kvs|
  {
    if |kvs| >= 2 {
      assert EvenItems(kvs)[0] == kvs[0];
      assert EvenItems(kvs)[1..] == EvenItems(kvs[2..]);
      StoredAsIs(kvs[2..]);
      assert kvs == [kvs[0], kvs[1]] + kvs[2..];
    }
  }

  /** Conversely, with keys that are no negative zero. */
  lemma KeptWhole(kvs: seq<TsValue>)
    requires |kvs| % 2 == 0 && |SetAll([], kvs)| == |kvs| / 2
    ensures Separate(EvenItems(kvs)) && TsFlatten(SetAll([], kvs)) == Stored(kvs)
    ensures NoNegativeZeros(EvenItems(kvs)) ==> Apart(EvenItems(kvs)) && TsFlatten(SetAll([], kvs)) == kvs
  {
    assert KeysOf([]) + EvenItems(kvs) == EvenItems(kvs) && TsFlatten([]) + Stored(kvs) == Stored(kvs);
    hide SameKey, EvenItems, Stored, SetAll;
    FullMap([], kvs);
    if NoNegativeZeros(EvenItems(kvs)) {
      StoredAsIs(kvs);
    }
  }

  lemma {:induction false} FlattenInjective(es: seq<TsEntry>, ds: seq<TsEntry>)
    requires TsFlatten(es) == TsFlatten(ds)
    ensures es == ds
  {
    if es != [] {
      var ts, us := TsFlatten(es), TsFlatten(ds);
      assert es[0].key == ts[0] && es[0].val == ts[1] && ts[2..] == TsFlatten(es[1..]);
      assert ds[0].key == us[0] && ds[0].val == us[1] && us[2..] == TsFlatten(ds[1..]);
      FlattenInjective(es[1..], ds[1..]);
    }
  }

  lemma {:induction false} EvenOfFlatten(es: seq<TsEntry>)
    ensures EvenItems(TsFlatten(es)) == KeysOf(es)
  {
    if es != [] {
      EvenOfFlatten(es[1..]);
      assert TsFlatten(es)[2..] == TsFlatten(es[1..]);
    }
  }

  // Negative zero never comes out of either reading but as a float.

  lemma PositiveConverts(n: nat)
    requires 0 < n <= 2 * P52
    ensures 0 < OfNat(n) < P63
  {
    OfNatExact(n);
    NotNegativeZero();
    hide OfNat;
  }

  lemma SmallIntNumber(arg: U64)
    ensures SmallInt(arg) != Number(NEG_ZERO) && NegativeInt(arg) != Number(NEG_ZERO)
  {
    if 0 < arg <= MAX_SAFE {
      PositiveConverts(arg);
    }
    if arg + 1 <= MAX_SAFE {
      PositiveConverts(arg + 1);
    }
    ZeroReads();
    hide OfNat;
  }

  lemma NumberOf(v: Value)
    ensures ToTs(v) == Number(NEG_ZERO) ==> v == Float(NEG_ZERO)
  {
    if v.Uint? {
      SmallIntNumber(v.u);
    } else if v.Int? {
      SmallIntNumber(if v.i >= 0 then v.i else -1 - v.i);
    }
    hide SmallInt, NegativeInt, NearestNumber, StripBom, SetAll, ToTsAll;
  }

  lemma NoNegativeZeroTree(t: TsValue)
    requires Readable(t)
    ensures GoTree(t) != Float(NEG_ZERO)
  {
    GoTreeView(t);
    NotNegativeZero();
    hide GoTree, IsInteger, IntOf;
  }

  lemma {:induction false} NoNegativeZeroTrees(ts: seq<TsValue>)
    requires ReadableAll(ts)
    ensures forall v | v in GoTreeAll(ts) :: v != Float(NEG_ZERO)
  {
    if ts != [] {
      hide GoTree, Readable;
      NoNegativeZeroTree(ts[0]);
      NoNegativeZeroTrees(ts[1..]);
    }
  }

  lemma {:induction false} EvenMembers(kvs: seq<TsValue>)
    ensures forall k | k in EvenItems(kvs) :: k in kvs
    decreases |kvs|
  {
    if |kvs| >= 2 {
      EvenMembers(kvs[2..]);
    }
  }

  lemma {:induction false} ToTsAllOf(vs: seq<Value>)
    requires forall v | v in vs :: v != Float(NEG_ZERO)
    ensures forall k | k in ToTsAll(vs) :: k != Number(NEG_ZERO)
  {
    if vs != [] {
      assert forall v | v in vs[1..] :: v in vs;
      assert vs[0] in vs;
      hide ToTs;
      NumberOf(vs[0]);
      ToTsAllOf(vs[1..]);
      assert ToTsAll(vs) == [ToTs(vs[0])] + ToTsAll(vs[1..]);
    }
  }

  lemma NoNegativeZeroKeys(vs: seq<Value>)
    requires forall v | v in vs :: v != Float(NEG_ZERO)
    ensures NoNegativeZeros(EvenItems(ToTsAll(vs)))
  {
    ToTsAllOf(vs);
    EvenMembers(ToTsAll(vs));
    var ks := EvenItems(ToTsAll(vs));
    forall i | 0 <= i < |ks|
      ensures ks[i] != Number(NEG_ZERO)
    {
      assert ks[i] in ks;
    }
  }

  lemma NearestBound(num: U64)
    ensures NearestNumber(num) <= TWO_64 && NearestNumber(0) == 0
  {
    Pow2Values();
    Pow2Monotone(65, 1023);
    OfNatIsInteger(num);
    var top: U64 := 1087 * P52;
    LargeMagnitude(top, 1087, P52);
    hide Pow2, IsInteger, Magnitude, OfNat;
    OfNatNearest(num, top);
    OfNatExact(0);
  }

  // Go trees through TypeScript.

  lemma KeptMapIf(v: Value)
    requires v.Map? && Readable(ToTs(v)) && GoTree(ToTs(v)) == v
    ensures TsKids(ToTs(v)) == ToTsAll(Kids(v)) && Apart(EvenItems(ToTsAll(Kids(v))))
  {
    var kvs := ToTsAll(Kids(v));
    GoTreeView(ToTs(v));
    assert ToTs(v) == Dict(SetAll([], kvs));
    NoNegativeZeroTrees(TsKids(ToTs(v)));
    hide ToTs, SetAll, GoTree, Readable, ToTsAll, ReadableAll;
    NoNegativeZeroKeys(Kids(v));
    KeptWhole(kvs);
  }

  lemma KeptFrameIf(v: Value)
    requires !v.Map? && Readable(ToTs(v)) && GoTree(ToTs(v)) == v
    ensures TsKids(ToTs(v)) == ToTsAll(Kids(v)) && FrameKept(FrameOf(v))
  {
    GoTreeView(ToTs(v));
    ToTsShape(v);
    hide ToTs, GoTree, Readable, ReadableAll;
    if v.Tag? {
      KeptTag(v, ToTs(v));
    } else if !v.Array? {
      KeptLeafIf(v);
    }
  }

  lemma KeptTag(v: Value, t: TsValue)
    requires v.Tag? && |Kids(v)| == 1 && t == Tagged(NearestNumber(v.num), ToTsAll(Kids(v))[0])
    requires GoFrame(t) == FrameOf(v)
    ensures TsKids(t) == ToTsAll(Kids(v)) && FrameKept(FrameOf(v))
  {
    NearestBound(v.num);
    TagFrame(t);
    hide NearestNumber, ToTsAll, Kids, GoFrame;
    CutTag(NearestNumber(v.num), v.num);
  }

  lemma TagFrame(t: TsValue)
    requires t.Tagged?
    ensures GoFrame(t) == TagOf(t.tag % TWO_64) && TsKids(t) == [t.value]
  {
  }

  lemma CutTag(m: nat, num: U64)
    requires m <= TWO_64 && num == m % TWO_64 && (num == 0 ==> m == 0)
    ensures m == num
  {
  }

  lemma KeptLeafIf(v: Value)
    requires IsLeaf(v) && LeadReadable(ToTsLeaf(v)) && GoFrame(ToTsLeaf(v)) == Leaf(v)
    ensures TsKids(ToTsLeaf(v)) == [] && FrameKept(Leaf(v))
  {
    SmallIntShape();
    hide IsInteger, IntOf, StripBom, SmallInt, NegativeInt;
  }

  lemma SmallIntShape()
    ensures forall n: U64 :: TsKids(SmallInt(n)) == [] && TsKids(NegativeInt(n)) == []
  {
  }

  lemma {:induction false} KeptIf(v: Value)
    requires Readable(ToTs(v)) && GoTree(ToTs(v)) == v
    ensures Kept(v)
    decreases Size(v)
  {
    GoTreeView(ToTs(v));
    if v.Map? {
      KeptMapIf(v);
    } else {
      KeptFrameIf(v);
    }
    hide ToTs, ToTsAll, GoTree, GoTreeAll, Readable, ReadableAll, Apart, TsKids;
    KeptAllIf(Kids(v));
  }

  lemma {:induction false} KeptAllIf(vs: seq<Value>)
    requires ReadableAll(ToTsAll(vs)) && GoTreeAll(ToTsAll(vs)) == vs
    ensures KeptAll(vs)
    decreases SizeAll(vs)
  {
    if vs != [] {
      hide ToTs, GoTree, Readable, Kept;
      var ts := ToTsAll(vs);
      assert ts[1..] == ToTsAll(vs[1..]);
      assert GoTreeAll(ts)[0] == GoTree(ts[0]) && GoTreeAll(ts)[1..] == GoTreeAll(ts[1..]);
      KeptIf(vs[0]);
      KeptAllIf(vs[1..]);
    }
  }

  /** A Go tree as the decoder returns it comes back from TypeScript unchanged exactly when it is kept: no
      float that is an integer, no byte-order mark, no keys a Map takes for one, no tag number that rounds. */
  lemma KeptExactly(v: Value)
    requires Norm(v) == v && Sized(v)
    ensures Kept(v) <==> Readable(ToTs(v)) && GoTree(ToTs(v)) == v
  {
    hide *;
    if Kept(v) {
      ThereAndBack(v);
    }
    if Readable(ToTs(v)) && GoTree(ToTs(v)) == v {
      KeptIf(v);
    }
  }

  /** TypeScript re-encodes what Go sent byte for byte exactly when the tree Go reads is kept. */
  lemma ReencodesExactly(rt: Runtime, v: Value)
    requires Sized(v) && TextOk(rt, v) && Height(v) <= DEPTH_LIMIT
    ensures TsDecode(rt, Enc(v)).Ok?
    ensures TsEnc(TsDecode(rt, Enc(v)).value) == Enc(v) <==> Kept(Norm(v))
  {
    hide *;
    TypeScriptReadsGo(rt, v);
    NormKeeps(rt, v);
    var t := ToTs(Norm(v));
    Codec.RoundTrip(rt, v);
    if TsEnc(t) == Enc(v) {
      ReadSized(Norm(v));
      GoReadsTypeScript(rt, t);
      KeptIf(Norm(v));
    }
    if Kept(Norm(v)) {
      ThereAndBack(Norm(v));
      SameBytes(t);
      Codec.EncNorm(v);
    }
  }

  lemma {:induction false} SetAllMembers(es: seq<TsEntry>, kvs: seq<TsValue>)
    requires TsSizedAll(TsFlatten(es)) && TsSizedAll(kvs)
    ensures TsSizedAll(TsFlatten(SetAll(es, kvs)))
    decreases |kvs|
  {
    if |kvs| >= 2 {
      SetOneMember(es, kvs[0], kvs[1]);
      SetAllOne(es, kvs);
      SizedPair(kvs);
      hide *;
      SetAllMembers(MapSet(es, kvs[0], kvs[1]), kvs[2..]);
    }
  }

  lemma SizedPair(kvs: seq<TsValue>)
    requires |kvs| >= 2
    ensures TsSizedAll(kvs) <==> TsSized(kvs[0]) && TsSized(kvs[1]) && TsSizedAll(kvs[2..])
  {
    hide TsSized;
    assert kvs[1..][1..] == kvs[2..] && kvs[1..][0] == kvs[1];
  }

  lemma {:induction false} SetOneMember(es: seq<TsEntry>, k: TsValue, v: TsValue)
    requires TsSizedAll(TsFlatten(es)) && TsSized(k) && TsSized(v)
    ensures TsSizedAll(TsFlatten(MapSet(es, k, v)))
  {
    var ds := MapSet(es, k, v);
    SizedStored(k);
    if es == [] {
      SizedCons(TsEntry(StoredKey(k), v), []);
      assert TsSizedAll(TsFlatten([]));
    } else {
      SizedCons(es[0], es[1..]);
      if SameKey(es[0].key, k) {
        SizedCons(TsEntry(es[0].key, v), es[1..]);
      } else {
        hide TsSized, SameKey, StoredKey;
        SetOneMember(es[1..], k, v);
        SizedCons(es[0], MapSet(es[1..], k, v));
      }
    }
  }

  lemma SizedCons(e: TsEntry, es: seq<TsEntry>)
    ensures TsSizedAll(TsFlatten([e] + es)) <==> TsSized(e.key) && TsSized(e.val) && TsSizedAll(TsFlatten(es))
  {
    assert ([e] + es)[1..] == es;
    var kvs := TsFlatten([e] + es);
    assert kvs[2..] == TsFlatten(es);
    hide TsSized;
    SizedPair(kvs);
  }

  lemma SizedStored(k: TsValue)
    ensures TsSized(k) ==> TsSized(StoredKey(k))
  {
    assert TsKids(Number(0)) == [] && TsSizedAll([]);
  }

  lemma ReadSizedLeaf(v: Value)
    requires IsLeaf(v) && Sized(v)
    ensures TsSized(ToTsLeaf(v))
  {
    assert TsSizedAll([]);
    SmallIntShape();
    SmallIntSized();
    hide SmallInt, NegativeInt;
  }

  lemma SmallIntSized()
    ensures forall n: U64 :: LeadSized(SmallInt(n)) && LeadSized(NegativeInt(n))
  {
  }

  lemma {:induction false} ReadSized(v: Value)
    requires Sized(v)
    ensures TsSized(ToTs(v))
    decreases Size(v)
  {
    ToTsShape(v);
    SizedKids(v);
    ReadSizedAll(Kids(v));
    hide ToTs, ToTsAll, ToTsLeaf, Kids, NearestNumber, SizedAll, Sized, TsSized, TsSizedAll;
    if IsLeaf(v) {
      ReadSizedLeaf(v);
    } else if v.Map? {
      ReadSizedMap(v);
    } else {
      ReadSizedPlain(v, ToTsAll(Kids(v)));
    }
  }

  lemma ReadSizedPlain(v: Value, us: seq<TsValue>)
    requires TsSizedAll(us) && |us| < TWO_64
    ensures TsSized(List(us))
    ensures forall tag: nat | |us| == 1 :: TsSized(Tagged(tag, us[0]))
  {
    assert |us| == 1 ==> us == [us[0]];
    hide TsSizedAll;
  }

  lemma SizedKids(v: Value)
    requires Sized(v)
    ensures SizedAll(Kids(v)) && (v.Array? ==> |Kids(v)| < TWO_64) && (v.Map? ==> |Kids(v)| / 2 < TWO_64)
    ensures |Kids(v)| == Arity(FrameOf(v))
  {
    hide SizedAll;
  }

  lemma ReadSizedMap(v: Value)
    requires v.Map? && TsSizedAll(ToTsAll(Kids(v))) && |Kids(v)| / 2 < TWO_64
    ensures TsSized(ToTs(v))
  {
    var kvs := ToTsAll(Kids(v));
    assert ToTs(v) == Dict(SetAll([], kvs));
    assert TsSizedAll(TsFlatten([]));
    hide ToTs, ToTsAll, SetAll, TsSizedAll;
    SetAllAtMost([], kvs);
    SetAllMembers([], kvs);
  }

  lemma {:induction false} ReadSizedAll(vs: seq<Value>)
    requires SizedAll(vs)
    ensures TsSizedAll(ToTsAll(vs))
    decreases SizeAll(vs)
  {
    if vs != [] {
      ReadSized(vs[0]);
      ReadSizedAll(vs[1..]);
      hide ToTs, TsSized, Sized;
      assert ToTsAll(vs)[1..] == ToTsAll(vs[1..]);
    }
  }
}
