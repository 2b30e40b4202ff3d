/** The two encoders against each other: TypeScript writes the bytes Go writes for the corresponding
    tree, and Go reads TypeScript's bytes as that tree, or refuses them. */
module Twins {
  import opened Machine
  import opened CborTree
  import opened Encoder
  import opened Grammar
  import opened Parser
  import opened Float64
  import opened TsTree
  import opened Simulation
  import Codec

  /** Integers Go can read back exactly. TypeScript writes any, keeping the low 64 bits of the argument. */
  predicate IntInRange(n: int) {
    -0x8000_0000_0000_0000 <= n < TWO_64
  }

  /** Integers whose low 64 bits Go accepts: all but those that read as less than the least int64. */
  predicate IntReadable(n: int) {
    n >= 0 || WireArg(n) <= MAX_I64
  }

  predicate LeadReadable(t: TsValue) {
    match t
    case Number(bits) => IsInteger(bits) ==> IntReadable(IntOf(bits))
    case BigInt(n) => IntReadable(n)
    case _ => true
  }

  predicate Readable(t: TsValue)
    decreases TsSize(t)
  {
    LeadReadable(t) && ReadableAll(TsKids(t))
  }

  predicate ReadableAll(ts: seq<TsValue>)
    decreases TsSizeAll(ts)
  {
    ts == [] || (Readable(ts[0]) && ReadableAll(ts[1..]))
  }

  /** Lengths fit 64 bits, as those of JavaScript objects do. */
  predicate LeadSized(t: TsValue) {
    match t
    case Str(s) => |s| < TWO_64
    case Blob(d) => |d| < TWO_64
    case List(items) => |items| < TWO_64
    case Dict(entries) => |entries| < TWO_64
    case _ => true
  }

  predicate TsSized(t: TsValue)
    decreases TsSize(t)
  {
    LeadSized(t) && TsSizedAll(TsKids(t))
  }

  predicate TsSizedAll(ts: seq<TsValue>)
    decreases TsSizeAll(ts)
  {
    ts == [] || (TsSized(ts[0]) && TsSizedAll(ts[1..]))
  }

  /** Nothing that is cut to 64 bits on the wire. */
  predicate LeadInRange(t: TsValue): (r: bool)
    ensures r ==> LeadReadable(t) && LeadSized(t)
  {
    match t
    case Number(bits) => IsInteger(bits) ==> IntInRange(IntOf(bits))
    case BigInt(n) => IntInRange(n)
    case Tagged(tag, _) => tag < TWO_64
    case _ => LeadSized(t)
  }

  predicate InRange(t: TsValue): (r: bool)
    ensures r ==> Readable(t) && TsSized(t)
    decreases TsSize(t)
  {
    LeadInRange(t) && InRangeAll(TsKids(t))
  }

  predicate InRangeAll(ts: seq<TsValue>): (r: bool)
    ensures r ==> ReadableAll(ts) && TsSizedAll(ts)
    decreases TsSizeAll(ts)
  {
    ts == [] || (InRange(ts[0]) && InRangeAll(ts[1..]))
  }

  /** The integer Go makes of the low 64 bits. */
  function GoInt(n: int): Value
    requires IntReadable(n)
  {
    if n >= 0 then Uint(WireArg(n)) else Int(-1 - WireArg(n))
  }

  /** The head Go sees where TypeScript has this value. */
  function GoFrame(t: TsValue): (f: Frame)
    requires LeadReadable(t)
    ensures Proper(f) && Arity(f) == |TsKids(t)|
  {
    match t
    case Number(bits) => Leaf(if IsInteger(bits) then GoInt(IntOf(bits)) else Float(bits))
    case BigInt(n) => Leaf(GoInt(n))
    case Boolean(b) => Leaf(Bool(b))
    case JsNull => Leaf(Null)
    case Str(s) => Leaf(Text(s))
    case Blob(d) => Leaf(Bytes(d))
    case List(items) => ArrayOf(|items|)
    case Dict(entries) => MapOf(|entries|)
    case Tagged(tag, _) => TagOf(tag % TWO_64)
  }

  /** The Go tree that corresponds to a TypeScript tree, each integer and tag cut to its low 64 bits. */
  function GoTree(t: TsValue): Value
    requires Readable(t)
    decreases TsSize(t)
  {
    Build(GoFrame(t), GoTreeAll(TsKids(t)))
  }

  function GoTreeAll(ts: seq<TsValue>): (vs: seq<Value>)
    requires ReadableAll(ts)
    ensures |vs| == |ts|
    decreases TsSizeAll(ts)
  {
    if ts == [] then [] else [GoTree(ts[0])] + GoTreeAll(ts[1..])
  }

  lemma LeadBytes(t: TsValue)
    requires LeadInRange(t)
    ensures TsLead(t) == EncFrame(GoFrame(t))
  {
    hide Head, BigEndian, IsInteger, IntOf;
  }

  lemma GoTreeView(t: TsValue)
    requires Readable(t)
    ensures ReadableAll(TsKids(t)) && (InRange(t) ==> InRangeAll(TsKids(t)))
    ensures FrameOf(GoTree(t)) == GoFrame(t) && Kids(GoTree(t)) == GoTreeAll(TsKids(t))
  {
    KidsBuild(GoFrame(t), GoTreeAll(TsKids(t)));
  }

  lemma EncView(v: Value)
    ensures Proper(FrameOf(v)) && Enc(v) == EncFrame(FrameOf(v)) + EncAll(Kids(v))
  {
    BuildKids(v);
    assert Enc(v) == EncFrame(FrameOf(v)) + EncAll(Kids(v));
  }

  lemma {:induction false} SameBytesAll(ts: seq<TsValue>)
    requires InRangeAll(ts)
    ensures TsEncAll(ts) == EncAll(GoTreeAll(ts))
    decreases TsSizeAll(ts)
  {
    if ts != [] {
      SameBytes(ts[0]);
      SameBytesAll(ts[1..]);
      hide TsEnc, Enc, GoTree, InRange, Readable;
      assert GoTreeAll(ts)[1..] == GoTreeAll(ts[1..]);
    }
  }

  /** Corresponding trees are written to the same bytes by both encoders. */
  lemma {:induction false} SameBytes(t: TsValue)
    requires InRange(t)
    ensures TsEnc(t) == Enc(GoTree(t))
    decreases TsSize(t)
  {
    GoTreeView(t);
    SameBytesAll(TsKids(t));
    LeadBytes(t);
    EncView(GoTree(t));
    hide Enc, EncAll, TsEncAll, TsLead, TsKids, EncFrame, GoFrame, GoTree, GoTreeAll, Kids, FrameOf, ReadableAll,
      LeadReadable;
  }

  lemma {:induction false} GoTreeAllNormal(ts: seq<TsValue>)
    requires ReadableAll(ts) && TsSizedAll(ts)
    ensures NormAll(GoTreeAll(ts)) == GoTreeAll(ts) && SizedAll(GoTreeAll(ts))
    decreases TsSizeAll(ts)
  {
    if ts != [] {
      GoTreeNormal(ts[0]);
      GoTreeAllNormal(ts[1..]);
      hide Norm, Sized, GoTree, Readable, TsSized;
      assert GoTreeAll(ts)[1..] == GoTreeAll(ts[1..]);
    }
  }

  lemma {:induction false} GoTreeNormal(t: TsValue)
    requires Readable(t) && TsSized(t)
    ensures Norm(GoTree(t)) == GoTree(t) && Sized(GoTree(t))
    decreases TsSize(t)
  {
    GoTreeView(t);
    GoTreeAllNormal(TsKids(t));
    NormalView(GoTree(t));
  }

  lemma NormalView(v: Value)
    requires NormAll(Kids(v)) == Kids(v) && SizedAll(Kids(v))
    requires v.Int? ==> v.i < 0
    requires (v.Text? ==> |v.text| < TWO_64) && (v.Bytes? ==> |v.data| < TWO_64)
    requires match FrameOf(v) case ArrayOf(n) => n < TWO_64 case MapOf(n) => n < TWO_64 case _ => true
    ensures Norm(v) == v && Sized(v)
  {
    BuildKids(v);
  }

  // Go's reading of anything TypeScript writes.

  /** Texts and height of a TypeScript tree, as a receiver will judge them. */
  predicate TsTextOk(rt: Runtime, t: TsValue)
    decreases TsSize(t)
  {
    (t.Str? ==> rt.utf8(t.text)) && TsTextOkAll(rt, TsKids(t))
  }

  predicate TsTextOkAll(rt: Runtime, ts: seq<TsValue>)
    decreases TsSizeAll(ts)
  {
    ts == [] || (TsTextOk(rt, ts[0]) && TsTextOkAll(rt, ts[1..]))
  }

  function TsHeight(t: TsValue): nat
    decreases TsSize(t)
  {
    var ks := TsKids(t);
    if ks == [] then 0 else 1 + TsHeightAll(ks)
  }

  function TsHeightAll(ts: seq<TsValue>): nat
    decreases TsSizeAll(ts)
  {
    if ts == [] then 0
    else
      var h, r := TsHeight(ts[0]), TsHeightAll(ts[1..]);
      if h > r then h else r
  }

  lemma LeadIsForm(widen: U32 -> U64, t: TsValue)
    requires LeadReadable(t) && LeadSized(t)
    ensures FrameForm(widen, GoFrame(t), TsLead(t))
  {
    hide Head, HeadForm, IsInteger, IntOf, BigEndian, StringForm;
    match t
    case Number(bits) => if IsInteger(bits) { IntIsForm(IntOf(bits)); }
    case BigInt(n) => IntIsForm(n);
    case Str(s) => StringIsForm(3, s);
    case Blob(d) => StringIsForm(2, d);
    case List(items) => HeadIsForm(4, |items|);
    case Dict(entries) => HeadIsForm(5, |entries|);
    case Tagged(tag, _) => HeadReads(6, tag);
    case _ =>
  }

  lemma IntIsForm(n: int)
    ensures HeadForm(if n >= 0 then 0 else 1, WireArg(n), IntHead(n))
  {
    hide Head, HeadForm;
    HeadReads(if n >= 0 then 0 else 1, if n >= 0 then n else -1 - n);
  }

  lemma LeadParses(rt: Runtime, t: TsValue, rest: seq<Byte>)
    requires LeadSized(t) && (t.Str? ==> rt.utf8(t.text)) && |TsKids(t)| <= |rest|
    ensures ParseFrame(rt, TsLead(t) + rest)
         == if LeadReadable(t) then Ok((GoFrame(t), |TsLead(t)|)) else Err(NegativeOutOfRange)
  {
    if LeadReadable(t) {
      LeadIsForm(rt.widen, t);
      TextLead(t);
      hide FrameForm, GoFrame, TsLead, TsKids, ParseFrame, Arity, LeadReadable;
      ParseFrameComplete(rt, GoFrame(t), TsLead(t), rest);
    } else {
      var n := if t.Number? then IntOf(t.bits) else t.n;
      assert TsLead(t) == IntHead(n);
      hide TsLead, IntOf, IsInteger, HeadForm, ParseFrame, IntHead;
      IntIsForm(n);
      HeadParses(rt, 1, WireArg(n), IntHead(n), rest);
    }
  }

  lemma TextLead(t: TsValue)
    requires LeadReadable(t)
    ensures GoFrame(t).Leaf? && GoFrame(t).v.Text? ==> t == Str(GoFrame(t).v.text)
  {
    hide IsInteger, IntOf;
  }

  lemma LeadNonempty(t: TsValue)
    ensures TsLead(t) != []
  {
    hide BigEndian, IsInteger, IntOf;
  }

  lemma {:induction false} EncAllLength(ts: seq<TsValue>)
    ensures |TsEncAll(ts)| >= |ts|
  {
    if ts != [] {
      LeadNonempty(ts[0]);
      hide TsLead;
      EncAllLength(ts[1..]);
    }
  }

  lemma TsItemParts(rt: Runtime, t: TsValue)
    ensures TsEnc(t) == TsLead(t) + TsEncAll(TsKids(t)) && TsSizeAll(TsKids(t)) < TsSize(t)
    ensures TsSized(t) ==> LeadSized(t) && TsSizedAll(TsKids(t))
    ensures TsTextOk(rt, t) <==> (t.Str? ==> rt.utf8(t.text)) && TsTextOkAll(rt, TsKids(t))
    ensures TsHeight(t) == if TsKids(t) == [] then 0 else 1 + TsHeightAll(TsKids(t))
    ensures Readable(t) <==> LeadReadable(t) && ReadableAll(TsKids(t))
    ensures Readable(t) ==> GoTree(t) == Build(GoFrame(t), GoTreeAll(TsKids(t)))
    ensures LeadReadable(t) ==> Arity(GoFrame(t)) == |TsKids(t)|
    ensures DEPTH_LIMIT == 64
  {
    hide TsLead, TsEncAll, TsKids, LeadSized, LeadReadable, GoFrame, Build;
  }

  lemma TsListParts(rt: Runtime, ts: seq<TsValue>)
    requires ts != []
    ensures TsEncAll(ts) == TsEnc(ts[0]) + TsEncAll(ts[1..])
    ensures TsSize(ts[0]) < TsSizeAll(ts) && TsSizeAll(ts[1..]) < TsSizeAll(ts)
    ensures TsSizedAll(ts) <==> TsSized(ts[0]) && TsSizedAll(ts[1..])
    ensures TsTextOkAll(rt, ts) <==> TsTextOk(rt, ts[0]) && TsTextOkAll(rt, ts[1..])
    ensures TsHeightAll(ts)
        == if TsHeight(ts[0]) > TsHeightAll(ts[1..]) then TsHeight(ts[0]) else TsHeightAll(ts[1..])
    ensures ReadableAll(ts) <==> Readable(ts[0]) && ReadableAll(ts[1..])
    ensures ReadableAll(ts) ==> GoTreeAll(ts) == [GoTree(ts[0])] + GoTreeAll(ts[1..])
  {
    hide TsEnc, TsSized, TsTextOk, TsHeight, Readable, GoTree;
  }

  /** Go on the bytes of a TypeScript tree with valid texts that leaves room for its height: the
      corresponding tree, or the range error when an integer reads as less than the least int64. */
  lemma {:induction false} GoParses(rt: Runtime, t: TsValue, tail: seq<Byte>, depth: int)
    requires TsSized(t) && TsTextOk(rt, t) && depth + TsHeight(t) <= DEPTH_LIMIT
    ensures Parse(rt, TsEnc(t) + tail, depth)
         == if Readable(t) then Ok((GoTree(t), |TsEnc(t)|)) else Err(NegativeOutOfRange)
    decreases TsSize(t)
  {
    hide *;
    TsItemParts(rt, t);
    var lead, kids := TsLead(t), TsKids(t);
    var inner := TsEncAll(kids);
    EncAllLength(kids);
    Parser.Regroup(lead, inner, tail);
    LeadParses(rt, t, inner + tail);
    if LeadReadable(t) {
      GoParsesAll(rt, kids, tail, depth + 1);
      GoParse(rt, TsEnc(t) + tail, depth, GoFrame(t), |lead|);
    } else {
      FrameError(rt, TsEnc(t) + tail, depth);
    }
  }

  lemma FrameError(rt: Runtime, s: seq<Byte>, depth: int)
    requires depth <= DEPTH_LIMIT && ParseFrame(rt, s).Err?
    ensures Parse(rt, s, depth) == Err(ParseFrame(rt, s).error)
  {
    hide ParseFrame;
  }

  lemma {:induction false} GoParsesAll(rt: Runtime, ts: seq<TsValue>, tail: seq<Byte>, depth: int)
    requires TsSizedAll(ts) && TsTextOkAll(rt, ts) && (ts != [] ==> depth + TsHeightAll(ts) <= DEPTH_LIMIT)
    ensures ParseAll(rt, TsEncAll(ts) + tail, depth, |ts|)
         == if ReadableAll(ts) then Ok((GoTreeAll(ts), |TsEncAll(ts)|)) else Err(NegativeOutOfRange)
    decreases TsSizeAll(ts)
  {
    hide *;
    if ts == [] {
      EmptyList(rt, TsEncAll(ts) + tail, depth);
      NoItems();
    } else {
      TsListParts(rt, ts);
      var t, us := ts[0], ts[1..];
      Parser.Regroup(TsEnc(t), TsEncAll(us), tail);
      GoParses(rt, t, TsEncAll(us) + tail, depth);
      GoParsesAll(rt, us, tail, depth);
      ParseAllMatch(rt, TsEncAll(ts) + tail, depth, |ts|);
    }
  }

  lemma NoItems()
    ensures TsEncAll([]) == [] && ReadableAll([]) && GoTreeAll([]) == []
  {
  }

  lemma ParseAllMatch(rt: Runtime, s: seq<Byte>, depth: int, count: nat)
    requires count > 0
    ensures Parse(rt, s, depth).Err? ==> ParseAll(rt, s, depth, count) == Err(Parse(rt, s, depth).error)
    ensures Parse(rt, s, depth).Ok? ==>
      var (v, n) := Parse(rt, s, depth).value;
      var rest := ParseAll(rt, s[n..], depth, count - 1);
      && (rest.Ok? ==> ParseAll(rt, s, depth, count) == Ok(([v] + rest.value.0, n + rest.value.1)))
      && (rest.Err? ==> ParseAll(rt, s, depth, count) == Err(rest.error))
  {
    hide Parse;
  }

  /** The whole payload, under the same conditions. */
  lemma GoDecodes(rt: Runtime, t: TsValue)
    requires TsSized(t) && TsTextOk(rt, t) && TsHeight(t) <= DEPTH_LIMIT
    ensures Decode(rt, TsEnc(t)) == if Readable(t) then Ok(GoTree(t)) else Err(NegativeOutOfRange)
  {
    hide Parse, TsEnc, GoTree, Readable, TsSized, TsTextOk, TsHeight;
    GoParses(rt, t, [], 0);
    assert TsEnc(t) + [] == TsEnc(t);
  }

  lemma {:induction false} GoTreeAllShape(rt: Runtime, ts: seq<TsValue>)
    requires ReadableAll(ts)
    ensures TextOkAll(rt, GoTreeAll(ts)) <==> TsTextOkAll(rt, ts)
    ensures HeightAll(GoTreeAll(ts)) == TsHeightAll(ts)
    decreases TsSizeAll(ts)
  {
    if ts != [] {
      GoTreeShape(rt, ts[0]);
      GoTreeAllShape(rt, ts[1..]);
      hide TextOk, TsTextOk, Height, TsHeight, GoTree, Readable;
      assert GoTreeAll(ts)[1..] == GoTreeAll(ts[1..]);
    }
  }

  lemma {:induction false} GoTreeShape(rt: Runtime, t: TsValue)
    requires Readable(t)
    ensures TextOk(rt, GoTree(t)) <==> TsTextOk(rt, t)
    ensures Height(GoTree(t)) == TsHeight(t)
    decreases TsSize(t)
  {
    GoTreeView(t);
    GoTreeAllShape(rt, TsKids(t));
    TextLead(t);
    hide GoTree, GoTreeAll, Readable, ReadableAll, Kids, TsKids, TextOkAll, TsTextOkAll, HeightAll, TsHeightAll,
      LeadReadable;
  }

  lemma {:induction false} FreeText(rt: Runtime, ts: seq<TsValue>)
    ensures TsTextOkAll(Codec.Permissive(rt), ts)
    decreases TsSizeAll(ts)
  {
    if ts != [] {
      FreeText(rt, TsKids(ts[0]));
      FreeText(rt, ts[1..]);
    }
  }

  /** With any texts and at any height, Go takes the bytes apart as the corresponding tree or not at all. */
  lemma OnlyReading(rt: Runtime, t: TsValue, v: Value)
    requires TsSized(t)
    ensures Wire(rt.widen, v, TsEnc(t)) <==> Readable(t) && v == GoTree(t)
  {
    var free, depth, b := Codec.Permissive(rt), DEPTH_LIMIT - TsHeight(t) - Height(v), TsEnc(t);
    FreeText(rt, TsKids(t));
    TsItemParts(free, t);
    assert TsTextOk(free, t);
    hide *;
    GoParses(free, t, [], depth);
    Whole(b);
    Codec.PermissiveKeeps(rt, v);
    if Wire(rt.widen, v, b) {
      ParseComplete(free, v, b, [], depth);
    }
    if Readable(t) && v == GoTree(t) {
      ParseSound(free, b, depth);
    }
  }

  lemma Whole(b: seq<Byte>)
    ensures b + [] == b && b[..|b|] == b
  {
  }

  /** Exactly when Go accepts what TypeScript wrote, and that it reads the corresponding tree. */
  lemma GoReadsTypeScript(rt: Runtime, t: TsValue)
    requires TsSized(t)
    ensures Decode(rt, TsEnc(t)).Ok? <==> Readable(t) && TsTextOk(rt, t) && TsHeight(t) <= DEPTH_LIMIT
    ensures Decode(rt, TsEnc(t)).Ok? ==> Decode(rt, TsEnc(t)).value == GoTree(t)
  {
    hide *;
    if Decode(rt, TsEnc(t)).Ok? {
      var v := Decode(rt, TsEnc(t)).value;
      Codec.DecodeIsGrammar(rt, TsEnc(t), v);
      OnlyReading(rt, t, v);
      GoTreeShape(rt, t);
    } else if Readable(t) && TsTextOk(rt, t) && TsHeight(t) <= DEPTH_LIMIT {
      GoDecodes(rt, t);
    }
  }

  /** TypeScript reads what Go wrote as the corresponding tree. */
  lemma TypeScriptReadsGo(rt: Runtime, v: Value)
    requires Sized(v) && TextOk(rt, v) && Height(v) <= DEPTH_LIMIT
    ensures TsDecode(rt, Enc(v)) == Ok(ToTs(Norm(v)))
  {
    hide *;
    Codec.RoundTrip(rt, v);
    DecodersAgree(rt, Enc(v));
  }

  // Which Go trees survive the trip through TypeScript.

  /** Keys of a map, as TypeScript reads them, pairwise different for a JavaScript Map. */
  ghost predicate Apart(ks: seq<TsValue>) {
    && (forall i, j | 0 <= i < j < |ks| :: !SameKey(ks[i], ks[j]))
    && (forall i | 0 <= i < |ks| :: ks[i] != Number(NEG_ZERO))
  }

  function KeysOf(es: seq<TsEntry>): (ks: seq<TsValue>)
    ensures |ks| == |es|
  {
    if es == [] then [] else [es[0].key] + KeysOf(es[1..])
  }

  function EvenItems(kvs: seq<TsValue>): seq<TsValue>
    decreases |kvs|
  {
    if |kvs| < 2 then [] else [kvs[0]] + EvenItems(kvs[2..])
  }

  lemma {:induction false} MapSetNew(es: seq<TsEntry>, k: TsValue, v: TsValue)
    requires forall i | 0 <= i < |es| :: !SameKey(es[i].key, k)
    requires k != Number(NEG_ZERO)
    ensures MapSet(es, k, v) == es + [TsEntry(k, v)]
  {
    if es != [] {
      forall i | 0 <= i < |es[1..]|
        ensures !SameKey(es[1..][i].key, k)
      {
        assert es[1..][i] == es[i + 1];
      }
      MapSetNew(es[1..], k, v);
    }
  }

  lemma {:induction false} KeysAt(es: seq<TsEntry>)
    ensures forall i | 0 <= i < |es| :: KeysOf(es)[i] == es[i].key
  {
    if es != [] {
      KeysAt(es[1..]);
    }
  }

  lemma {:induction false} KeysSnoc(es: seq<TsEntry>, e: TsEntry)
    ensures KeysOf(es + [e]) == KeysOf(es) + [e.key]
    ensures TsFlatten(es + [e]) == TsFlatten(es) + [e.key, e.val]
  {
    if es != [] {
      KeysSnoc(es[1..], e);
      assert (es + [e])[1..] == es[1..] + [e];
    }
  }

  lemma ApartStep(es: seq<TsEntry>, kvs: seq<TsValue>)
    requires |kvs| >= 2 && Apart(KeysOf(es) + EvenItems(kvs))
    ensures MapSet(es, kvs[0], kvs[1]) == es + [TsEntry(kvs[0], kvs[1])]
    ensures KeysOf(es + [TsEntry(kvs[0], kvs[1])]) + EvenItems(kvs[2..]) == KeysOf(es) + EvenItems(kvs)
  {
    var ks := KeysOf(es) + EvenItems(kvs);
    hide SameKey, MapSet;
    assert ks[|es|] == kvs[0];
    KeysAt(es);
    forall i | 0 <= i < |es|
      ensures !SameKey(es[i].key, kvs[0])
    {
      assert ks[i] == es[i].key;
    }
    MapSetNew(es, kvs[0], kvs[1]);
    KeysSnoc(es, TsEntry(kvs[0], kvs[1]));
    assert KeysOf(es) + [kvs[0]] + EvenItems(kvs[2..]) == ks;
  }

  lemma SplitPair(a: seq<TsValue>, kvs: seq<TsValue>)
    requires |kvs| >= 2
    ensures a + [kvs[0], kvs[1]] + kvs[2..] == a + kvs
  {
  }

  lemma SetAllUnfold(es: seq<TsEntry>, kvs: seq<TsValue>)
    ensures |kvs| >= 2 ==> SetAll(es, kvs) == SetAll(MapSet(es, kvs[0], kvs[1]), kvs[2..])
    ensures kvs == [] ==> SetAll(es, kvs) == es && TsFlatten(es) + kvs == TsFlatten(es)
  {
  }

  /** Setting keys that are apart loses nothing and keeps the order. */
  lemma {:induction false} SetAllApart(es: seq<TsEntry>, kvs: seq<TsValue>)
    requires |kvs| % 2 == 0 && Apart(KeysOf(es) + EvenItems(kvs))
    ensures TsFlatten(SetAll(es, kvs)) == TsFlatten(es) + kvs
    decreases |kvs|
  {
    hide *;
    SetAllUnfold(es, kvs);
    if |kvs| >= 2 {
      ApartStep(es, kvs);
      KeysSnoc(es, TsEntry(kvs[0], kvs[1]));
      SetAllApart(es + [TsEntry(kvs[0], kvs[1])], kvs[2..]);
      SplitPair(TsFlatten(es), kvs);
    }
  }

  /** A leaf or head TypeScript keeps exactly: a float that is not an integer, a text without a leading
      byte-order mark, a tag number that is a JavaScript number. */
  predicate FrameKept(f: Frame) {
    match f
    case Leaf(Float(bits)) => !IsInteger(bits)
    case Leaf(Text(s)) => StripBom(s) == s
    case TagOf(num) => NearestNumber(num) == num
    case _ => true
  }

  ghost predicate Kept(v: Value)
    decreases Size(v)
  {
    && FrameKept(FrameOf(v))
    && (v.Map? ==> Apart(EvenItems(ToTsAll(Kids(v)))))
    && KeptAll(Kids(v))
  }

  ghost predicate KeptAll(vs: seq<Value>)
    decreases SizeAll(vs)
  {
    vs == [] || (Kept(vs[0]) && KeptAll(vs[1..]))
  }

  lemma SmallIntBack(n: int)
    requires IntInRange(n)
    ensures n >= 0 ==> LeadInRange(SmallInt(n)) && GoFrame(SmallInt(n)) == Leaf(Uint(n))
    ensures n < 0 ==> LeadInRange(NegativeInt(-1 - n)) && GoFrame(NegativeInt(-1 - n)) == Leaf(Int(n))
  {
    ExactInt(n);
    if 0 <= n <= MAX_SAFE {
      OfNatExact(n);
      hide IsInteger, Magnitude, OfNat, GoInt, IntReadable;
    } else if -MAX_SAFE <= n < 0 {
      OfNatExact(-n);
      hide OfNat;
      SignedBack(OfNat(-n));
      hide IsInteger, Magnitude, GoInt, IntReadable;
    }
  }

  lemma ExactInt(n: int)
    requires IntInRange(n)
    ensures IntReadable(n) && GoInt(n) == if n >= 0 then Uint(n) else Int(n)
  {
  }

  lemma SignedBack(bits: U64)
    requires bits < P63 && IsInteger(bits)
    ensures IsInteger(P63 + bits) && IntOf(P63 + bits) + Magnitude(bits) == 0
  {
    SignedFields(bits);
  }

  /** Nothing lost: a kept tree goes to TypeScript and back unchanged. */
  lemma {:induction false} ThereAndBack(v: Value)
    requires Kept(v) && Norm(v) == v && Sized(v)
    ensures InRange(ToTs(v)) && GoTree(ToTs(v)) == v
    decreases Size(v)
  {
    BuildKids(v);
    NormView(v);
    ThereAndBackAll(Kids(v));
    KeptFrame(v);
  }

  lemma {:induction false} ThereAndBackAll(vs: seq<Value>)
    requires KeptAll(vs) && NormAll(vs) == vs && SizedAll(vs)
    ensures InRangeAll(ToTsAll(vs)) && GoTreeAll(ToTsAll(vs)) == vs
    decreases SizeAll(vs)
  {
    if vs != [] {
      assert NormAll(vs)[0] == Norm(vs[0]) && NormAll(vs)[1..] == NormAll(vs[1..]);
      ThereAndBack(vs[0]);
      ThereAndBackAll(vs[1..]);
      hide Kept, Norm, Sized, ToTs, GoTree, InRange;
      assert ToTsAll(vs)[1..] == ToTsAll(vs[1..]);
    }
  }

  lemma KeptMap(es: seq<Entry>, kvs: seq<TsValue>)
    requires |kvs| == 2 * |es| && Apart(EvenItems(kvs))
    ensures TsFlatten(SetAll([], kvs)) == kvs && |SetAll([], kvs)| == |es|
  {
    assert KeysOf([]) + EvenItems(kvs) == EvenItems(kvs);
    hide Apart, EvenItems, SetAll;
    SetAllApart([], kvs);
    assert TsFlatten([]) + kvs == kvs;
  }

  lemma KeptLeaf(v: Value)
    requires IsLeaf(v) && FrameKept(Leaf(v)) && NormLeaf(v) == v && Sized(v)
    ensures LeadInRange(ToTsLeaf(v)) && GoFrame(ToTsLeaf(v)) == Leaf(v) && TsKids(ToTsLeaf(v)) == []
  {
    hide SmallInt, NegativeInt, IsInteger, IntOf, StripBom;
    if v.Uint? {
      SmallIntBack(v.u);
      SmallIntLeaf(v.u);
    } else if v.Int? {
      SmallIntBack(v.i);
      SmallIntLeaf(-1 - v.i);
    }
  }

  lemma SmallIntLeaf(arg: U64)
    ensures TsKids(SmallInt(arg)) == [] && TsKids(NegativeInt(arg)) == []
  {
  }

  lemma KeptFrame(v: Value)
    requires FrameKept(FrameOf(v)) && NormLeaf(v) == v && Sized(v)
    requires v.Map? ==> Apart(EvenItems(ToTsAll(Kids(v))))
    ensures TsKids(ToTs(v)) == ToTsAll(Kids(v))
    ensures LeadInRange(ToTs(v)) && GoFrame(ToTs(v)) == FrameOf(v)
  {
    ToTsShape(v);
    hide ToTs, ToTsAll, ToTsLeaf, SetAll, Apart, EvenItems, NearestNumber, TsFlatten, Kids, SizedAll, GoFrame;
    if v.Map? {
      KeptMap(v.entries, ToTsAll(Kids(v)));
      ContainerFrames(ToTs(v));
    } else if IsLeaf(v) {
      KeptLeaf(v);
    } else {
      ContainerFrames(ToTs(v));
      assert v.Tag? ==> ToTsAll(Kids(v)) == [ToTsAll(Kids(v))[0]];
    }
  }

  lemma ContainerFrames(t: TsValue)
    requires t.List? || t.Dict? || t.Tagged?
    ensures t.List? ==> GoFrame(t) == ArrayOf(|t.items|)
    ensures t.Dict? ==> GoFrame(t) == MapOf(|t.entries|)
    ensures t.Tagged? && t.tag < TWO_64 ==> GoFrame(t) == TagOf(t.tag)
  {
  }
}
