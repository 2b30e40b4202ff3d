/** TypeScript on its own bytes: when it accepts what it wrote, what it then reads, and exactly which trees it
    reads back unchanged. */
module SelfEcho {
  import opened Machine
  import opened CborTree
  import opened Encoder
  import opened Grammar
  import opened Parser
  import opened Float64
  import opened TsTree
  import opened Simulation
  import opened Twins
  import opened Echo

  /** The integer a node stands for when Go refuses it. */
  function RefusedInt(t: TsValue): int
    requires !LeadReadable(t)
  {
    if t.Number? then IntOf(t.bits) else t.n
  }

  /** What TypeScript reads where it wrote this node. */
  function EchoFrame(t: TsValue): (f: TsFrame)
    ensures TsArity(f) == |TsKids(t)|
  {
    if LeadReadable(t) then ToTsFrame(GoFrame(t)) else TsLeaf(NegativeInt(WireArg(RefusedInt(t))))
  }

  /** What TypeScript reads from its own bytes. */
  function TsEcho(t: TsValue): TsValue
    decreases TsSize(t)
  {
    TsBuild(EchoFrame(t), TsEchoAll(TsKids(t)))
  }

  function TsEchoAll(ts: seq<TsValue>): (us: seq<TsValue>)
    ensures |us| == |ts|
    decreases TsSizeAll(ts)
  {
    if ts == [] then [] else [TsEcho(ts[0])] + TsEchoAll(ts[1..])
  }

  // The head.

  lemma RefusedLead(t: TsValue)
    requires !LeadReadable(t)
    ensures TsLead(t) == IntHead(RefusedInt(t)) && !IntReadable(RefusedInt(t)) && !t.Str? && TsKids(t) == []
  {
    hide IsInteger, IntOf, IntHead;
  }

  lemma InvalidBody(rt: Runtime, s: seq<Byte>, h: seq<Byte>, rest: seq<Byte>)
    requires !rt.utf8(s) && |s| < TWO_64 && h != []
    ensures TsParseBody(rt, 3, |s|, h + (s + rest), |h|).Err?
  {
    assert (h + (s + rest))[|h|..|h| + |s|] == s;
  }

  lemma InvalidText(rt: Runtime, s: seq<Byte>, rest: seq<Byte>)
    requires |s| < TWO_64 && !rt.utf8(s)
    ensures TsParseFrame(rt, TsLead(Str(s)) + rest).Err?
  {
    var h := Head(3, |s|);
    HeadIsForm(3, |s|);
    hide Head, HeadForm, ReadArg, TsReadArg, TsParseBody;
    ReadArgComplete(3, |s|, h, s + rest);
    var b := TsLead(Str(s)) + rest;
    assert b == h + (s + rest) && b[0] == h[0];
    SameReadArg(b, b[0] % 32);
    InvalidBody(rt, s, h, rest);
  }

  lemma RefusedParses(rt: Runtime, n: int, rest: seq<Byte>)
    requires !IntReadable(n)
    ensures TsParseFrame(rt, IntHead(n) + rest) == Ok((TsLeaf(NegativeInt(WireArg(n))), |IntHead(n)|))
  {
    IntIsForm(n);
    hide IntHead, HeadForm, ReadArg, TsReadArg, TsParseFrame;
    ReadArgComplete(1, WireArg(n), IntHead(n), rest);
    assert (IntHead(n) + rest)[0] == IntHead(n)[0];
    WideLead(rt, WireArg(n), IntHead(n) + rest, |IntHead(n)|);
  }

  lemma EchoLead(rt: Runtime, t: TsValue, rest: seq<Byte>)
    requires LeadSized(t) && |TsKids(t)| <= |rest|
    ensures if t.Str? ==> rt.utf8(t.text) then TsParseFrame(rt, TsLead(t) + rest) == Ok((EchoFrame(t), |TsLead(t)|))
            else TsParseFrame(rt, TsLead(t) + rest).Err?
  {
    hide TsLead, TsParseFrame, ParseFrame, TsKids, ToTsFrame, GoFrame, IntHead, LeadReadable, LeadSized;
    if t.Str? && !rt.utf8(t.text) {
      StringSized(t);
      InvalidText(rt, t.text, rest);
    } else if LeadReadable(t) {
      LeadParses(rt, t, rest);
      FrameSimulation(rt, TsLead(t) + rest);
    } else {
      RefusedLead(t);
      RefusedParses(rt, RefusedInt(t), rest);
    }
  }

  lemma StringSized(t: TsValue)
    requires t.Str? && LeadSized(t)
    ensures |t.text| < TWO_64
  {
  }

  // The whole tree.

  lemma EchoParts(t: TsValue)
    ensures TsEcho(t) == TsBuild(EchoFrame(t), TsEchoAll(TsKids(t))) && DEPTH_LIMIT == 64
  {
    hide EchoFrame, TsBuild, TsEchoAll, TsKids;
  }

  lemma EchoListParts(ts: seq<TsValue>)
    requires ts != []
    ensures TsEchoAll(ts) == [TsEcho(ts[0])] + TsEchoAll(ts[1..])
  {
    hide TsEcho;
  }

  /** TypeScript on its own bytes, before any others and at any depth: it accepts them exactly when the texts
      are valid and the height fits, and then stops at their end. */
  lemma {:induction false} EchoParses(rt: Runtime, t: TsValue, tail: seq<Byte>, depth: int)
    requires TsSized(t)
    ensures if TsTextOk(rt, t) && depth + TsHeight(t) <= DEPTH_LIMIT
            then TsParse(rt, TsEnc(t) + tail, depth) == Ok((TsEcho(t), |TsEnc(t)|))
            else TsParse(rt, TsEnc(t) + tail, depth).Err?
    decreases TsSize(t)
  {
    hide *;
    TsItemParts(rt, t);
    EchoParts(t);
    var lead, kids := TsLead(t), TsKids(t);
    var inner := TsEncAll(kids);
    EncAllLength(kids);
    Parser.Regroup(lead, inner, tail);
    EchoLead(rt, t, inner + tail);
    if depth > DEPTH_LIMIT || (t.Str? && !rt.utf8(t.text)) {
      ParseRefused(rt, TsEnc(t) + tail, depth);
    } else {
      EchoArity(t);
      EchoParsesAll(rt, kids, tail, depth + 1);
      TsParseOf(rt, TsEnc(t) + tail, depth, EchoFrame(t), |lead|);
    }
  }

  lemma EchoArity(t: TsValue)
    ensures TsArity(EchoFrame(t)) == |TsKids(t)|
  {
  }

  lemma {:induction false} EchoParsesAll(rt: Runtime, ts: seq<TsValue>, tail: seq<Byte>, depth: int)
    requires TsSizedAll(ts)
    ensures if TsTextOkAll(rt, ts) && (ts != [] ==> depth + TsHeightAll(ts) <= DEPTH_LIMIT)
            then TsParseAll(rt, TsEncAll(ts) + tail, depth, |ts|) == Ok((TsEchoAll(ts), |TsEncAll(ts)|))
            else TsParseAll(rt, TsEncAll(ts) + tail, depth, |ts|).Err?
    decreases TsSizeAll(ts)
  {
    hide *;
    TsParseAllStep(rt, TsEncAll(ts) + tail, depth, |ts|);
    if ts == [] {
      EchoNothing(rt);
    } else {
      TsListParts(rt, ts);
      EchoListParts(ts);
      var t, us := ts[0], ts[1..];
      Parser.Regroup(TsEnc(t), TsEncAll(us), tail);
      EchoParses(rt, t, TsEncAll(us) + tail, depth);
      EchoParsesAll(rt, us, tail, depth);
      LastHeight(rt, us);
    }
  }

  lemma EchoNothing(rt: Runtime)
    ensures TsEncAll([]) == [] && TsEchoAll([]) == [] && TsTextOkAll(rt, [])
  {
  }

  lemma LastHeight(rt: Runtime, ts: seq<TsValue>)
    ensures ts == [] ==> TsHeightAll(ts) == 0
  {
  }

  /** TypeScript accepts its own bytes exactly when the texts are valid and the height is at most 64, whatever
      integers are in them, and then reads the echo. */
  lemma ReadsItself(rt: Runtime, t: TsValue)
    requires TsSized(t)
    ensures TsDecode(rt, TsEnc(t)).Ok? <==> TsTextOk(rt, t) && TsHeight(t) <= DEPTH_LIMIT
    ensures TsDecode(rt, TsEnc(t)).Ok? ==> TsDecode(rt, TsEnc(t)).value == TsEcho(t)
  {
    hide TsParse, TsEnc, TsEcho, TsSized, TsTextOk, TsHeight;
    EchoParses(rt, t, [], 0);
    assert TsEnc(t) + [] == TsEnc(t);
  }

  /** For a tree Go accepts, the echo is TypeScript's reading of what Go reads. */
  lemma EchoThroughGo(rt: Runtime, t: TsValue)
    requires TsSized(t) && Readable(t) && TsTextOk(rt, t) && TsHeight(t) <= DEPTH_LIMIT
    ensures TsEcho(t) == ToTs(GoTree(t))
  {
    hide *;
    ReadsItself(rt, t);
    GoDecodes(rt, t);
    DecodersAgree(rt, TsEnc(t));
  }

  // Which trees come back unchanged.

  /** A node read back as it was: numbers are no negative zero and integers only up to 2^53 - 1, bigints are
      beyond that and have arguments of 64 bits, no text starts with a byte-order mark, no tag number rounds. */
  predicate LeadSettled(t: TsValue) {
    match t
    case Number(bits) => bits != NEG_ZERO && (IsInteger(bits) ==> -MAX_SAFE <= IntOf(bits) <= MAX_SAFE)
    case BigInt(n) => -TWO_64 <= n < TWO_64 && !(-MAX_SAFE <= n <= MAX_SAFE)
    case Str(s) => StripBom(s) == s
    case Tagged(tag, _) => NearestNumber(tag % TWO_64) == tag
    case _ => true
  }

  ghost predicate Settled(t: TsValue)
    decreases TsSize(t)
  {
    LeadSettled(t) && (t.Dict? ==> Apart(KeysOf(t.entries))) && SettledAll(TsKids(t))
  }

  ghost predicate SettledAll(ts: seq<TsValue>)
    decreases TsSizeAll(ts)
  {
    ts == [] || (Settled(ts[0]) && SettledAll(ts[1..]))
  }

  lemma IntSettled(n: int)
    requires IntReadable(n)
    ensures ToTsLeaf(GoInt(n)) == BigInt(n) <==> -TWO_64 <= n < TWO_64 && !(-MAX_SAFE <= n <= MAX_SAFE)
  {
    hide OfNat, OfInt;
  }

  lemma NumberSettled(bits: U64)
    requires IsInteger(bits) && IntReadable(IntOf(bits))
    ensures ToTsLeaf(GoInt(IntOf(bits))) == Number(bits)
        <==> bits != NEG_ZERO && -MAX_SAFE <= IntOf(bits) <= MAX_SAFE
  {
    NumberBack(bits);
    var n := IntOf(bits);
    SignOf(bits);
    if -MAX_SAFE <= n <= MAX_SAFE {
      hide OfInt, OfNat, IsInteger, IntOf;
      SmallBack(n);
    } else {
      LargeAway(bits);
    }
  }

  lemma SmallBack(n: int)
    requires -MAX_SAFE <= n <= MAX_SAFE
    ensures IntReadable(n) && ToTsLeaf(GoInt(n)) == Number(OfInt(n))
  {
    hide OfNat;
  }

  /** A larger integer comes back as a bigint, or as the number its low 64 bits stand for. */
  lemma LargeAway(bits: U64)
    requires IsInteger(bits) && IntReadable(IntOf(bits)) && !(-MAX_SAFE <= IntOf(bits) <= MAX_SAFE)
    ensures ToTsLeaf(GoInt(IntOf(bits))) != Number(bits)
  {
    var n := IntOf(bits);
    var back := ToTsLeaf(GoInt(n));
    SignOf(bits);
    hide IsInteger;
    if back.Number? {
      CutInteger(n);
      if n >= 0 {
        MagnitudeOf(bits);
        hide OfNat, Magnitude, IntOf;
        WrappedIntegerDiffers(bits);
      } else {
        hide OfNat, Magnitude, IntOf;
        WrappedNegative(bits - P63, n);
      }
    }
  }

  lemma MagnitudeOf(bits: U64)
    requires IsInteger(bits) && bits < P63
    ensures Magnitude(bits) == IntOf(bits)
  {
  }

  lemma CutInteger(n: int)
    requires IntReadable(n) && !(-MAX_SAFE <= n <= MAX_SAFE) && ToTsLeaf(GoInt(n)).Number?
    ensures n >= TWO_64 || n < -TWO_64
    ensures ToTsLeaf(GoInt(n)) == Number(if n >= 0 then OfNat(n % TWO_64) else OfInt(-1 - WireArg(n)))
  {
    hide OfNat;
  }

  lemma WrappedNegative(bits: U64, n: int)
    requires n < -TWO_64 && bits < P63 && IsInteger(bits) && Magnitude(bits) == -n && WireArg(n) <= MAX_I64
    ensures OfInt(-1 - WireArg(n)) != P63 + bits
  {
    hide IsInteger, Magnitude, OfNat;
    OfNatBound(WireArg(n) + 1);
    HugeExponent(bits);
  }

  lemma LeafSettled(t: TsValue)
    requires LeadReadable(t) && GoFrame(t).Leaf?
    ensures ToTsLeaf(GoFrame(t).v) == t <==> LeadSettled(t)
    ensures TsKids(t) == [] && !t.Dict?
  {
    hide SmallInt, NegativeInt, StripBom, NearestNumber, GoInt;
    match t
    case Number(bits) =>
      NotNegativeZero();
      if IsInteger(bits) {
        NumberSettled(bits);
      }
      hide IsInteger, IntOf;
    case BigInt(n) => IntSettled(n);
    case _ =>
  }

  lemma RefusedSettled(t: TsValue)
    requires !LeadReadable(t)
    ensures NegativeInt(WireArg(RefusedInt(t))) == t <==> LeadSettled(t)
  {
    hide IsInteger, IntOf, OfInt;
  }

  lemma DictSettled(entries: seq<TsEntry>, back: seq<TsValue>)
    requires |back| == 2 * |entries| && NoNegativeZeros(EvenItems(back))
    ensures SetAll([], back) == entries <==> back == TsFlatten(entries) && Apart(KeysOf(entries))
  {
    EvenOfFlatten(entries);
    assert KeysOf([]) + EvenItems(back) == EvenItems(back) && TsFlatten([]) + back == back;
    hide SetAll, Apart, EvenItems, KeysOf, TsFlatten;
    if SetAll([], back) == entries {
      KeptWhole(back);
    }
    if back == TsFlatten(entries) && Apart(KeysOf(entries)) {
      SetAllApart([], back);
      FlattenInjective(SetAll([], back), entries);
    }
  }

  lemma EchoNumber(t: TsValue)
    ensures TsEcho(t) != Number(NEG_ZERO)
  {
    var back := TsEchoAll(TsKids(t));
    EchoParts(t);
    hide TsEcho, TsEchoAll;
    if !LeadReadable(t) {
      SmallIntNumber(WireArg(RefusedInt(t)));
    } else if GoFrame(t).Leaf? {
      NotNegativeZero();
      hide SmallInt, NegativeInt, IsInteger, IntOf, StripBom;
      LeafNumber(GoFrame(t).v);
    }
  }

  lemma LeafNumber(v: Value)
    ensures ToTsLeaf(v) == Number(NEG_ZERO) ==> v == Float(NEG_ZERO)
  {
    if v.Uint? {
      SmallIntNumber(v.u);
    } else if v.Int? {
      SmallIntNumber(if v.i >= 0 then v.i else -1 - v.i);
    }
    hide SmallInt, NegativeInt, StripBom;
  }

  lemma {:induction false} EchoNumbers(ts: seq<TsValue>)
    ensures forall u | u in TsEchoAll(ts) :: u != Number(NEG_ZERO)
  {
    if ts != [] {
      EchoListParts(ts);
      hide TsEcho, TsEchoAll;
      EchoNumber(ts[0]);
      EchoNumbers(ts[1..]);
    }
  }

  lemma EchoKeys(ts: seq<TsValue>)
    ensures NoNegativeZeros(EvenItems(TsEchoAll(ts)))
  {
    EchoNumbers(ts);
    EvenMembers(TsEchoAll(ts));
    hide TsEchoAll, EvenItems;
    var ks := EvenItems(TsEchoAll(ts));
    forall i | 0 <= i < |ks|
      ensures ks[i] != Number(NEG_ZERO)
    {
      assert ks[i] in ks;
    }
  }

  lemma NodeSettled(t: TsValue, back: seq<TsValue>)
    requires |back| == |TsKids(t)| && NoNegativeZeros(EvenItems(back))
    ensures TsBuild(EchoFrame(t), back) == t
        <==> LeadSettled(t) && (t.Dict? ==> Apart(KeysOf(t.entries))) && back == TsKids(t)
  {
    if t.Dict? {
      hide SetAll, NoNegativeZeros, EvenItems, Apart, KeysOf, TsFlatten;
      DictSettled(t.entries, back);
    } else if t.Tagged? {
      hide NearestNumber;
    } else if !LeadReadable(t) {
      RefusedLead(t);
      RefusedSettled(t);
      hide LeadSettled, LeadReadable, TsKids, NegativeInt, RefusedInt;
    } else if !t.List? {
      hide ToTsLeaf, LeadSettled, LeadReadable, TsKids;
      LeafSettled(t);
    }
  }

  lemma {:induction false} EchoSettled(t: TsValue)
    ensures TsEcho(t) == t <==> Settled(t)
    decreases TsSize(t)
  {
    EchoParts(t);
    EchoKeys(TsKids(t));
    EchoAllSettled(TsKids(t));
    hide TsEcho, TsEchoAll, SettledAll, NoNegativeZeros, EvenItems, Apart, KeysOf, TsKids, TsBuild, EchoFrame,
      LeadSettled;
    NodeSettled(t, TsEchoAll(TsKids(t)));
  }

  lemma {:induction false} EchoAllSettled(ts: seq<TsValue>)
    ensures TsEchoAll(ts) == ts <==> SettledAll(ts)
    decreases TsSizeAll(ts)
  {
    if ts != [] {
      EchoSettled(ts[0]);
      EchoAllSettled(ts[1..]);
      EchoListParts(ts);
      hide TsEcho, Settled, TsEchoAll;
      var back := TsEchoAll(ts);
      assert back[0] == TsEcho(ts[0]) && back[1..] == TsEchoAll(ts[1..]);
      assert back == ts <==> back[0] == ts[0] && back[1..] == ts[1..];
    }
  }

  /** TypeScript reads its own bytes back as the tree it wrote exactly when the tree is settled, its texts are
      valid and its height is at most 64. */
  lemma SettledExactly(rt: Runtime, t: TsValue)
    requires TsSized(t)
    ensures TsDecode(rt, TsEnc(t)) == Ok(t) <==> Settled(t) && TsTextOk(rt, t) && TsHeight(t) <= DEPTH_LIMIT
  {
    hide *;
    ReadsItself(rt, t);
    EchoSettled(t);
  }
}
