/** Records written by TypeScript and read by Go: a Map filled by `set` in canonical key order, whatever
    numbers its fields hold. */
module TsRecords {
  import opened Machine
  import opened CborTree
  import opened Parser
  import opened Float64
  import opened TsTree
  import opened Twins
  import opened KeyOrder
  import opened Fields
  import opened Records
  import Transport

  datatype TsField = TsField(key: seq<Byte>, value: Option<TsValue>)

  /** The Map after `csilMap.set` has run for every field that is not undefined, in order. */
  function TsPresent(fs: seq<TsField>): seq<TsEntry> {
    if fs == [] then []
    else
      var front, last := TsPresent(fs[..|fs| - 1]), fs[|fs| - 1];
      if last.value.Some? then MapSet(front, Str(last.key), last.value.value) else front
  }

  lemma TsPresentStep(fs: seq<TsField>, i: nat)
    requires i < |fs|
    ensures TsPresent(fs[..i + 1]) ==
            if fs[i].value.Some? then MapSet(TsPresent(fs[..i]), Str(fs[i].key), fs[i].value.value)
            else TsPresent(fs[..i])
    ensures fs[..|fs|] == fs && TsPresent(fs[..0]) == []
  {
    hide MapSet;
    assert fs[..i + 1][..i] == fs[..i];
  }

  function Lay(f: TsField): seq<TsEntry> {
    if f.value.Some? then [TsEntry(Str(f.key), f.value.value)] else []
  }

  /** The present fields one after the other. */
  function Laid(fs: seq<TsField>): (es: seq<TsEntry>)
    ensures |es| <= |fs|
  {
    if fs == [] then [] else Laid(fs[..|fs| - 1]) + Lay(fs[|fs| - 1])
  }

  ghost predicate TsIncreasing(fs: seq<TsField>) {
    forall i, j | 0 <= i < j < |fs| :: LengthFirst(fs[i].key, fs[j].key)
  }

  lemma {:induction false} LaidNames(fs: seq<TsField>)
    ensures forall e | e in Laid(fs) ::
      exists i | 0 <= i < |fs| :: e == TsEntry(Str(fs[i].key), e.val) && fs[i].value == Some(e.val)
  {
    if fs != [] {
      var front, last := fs[..|fs| - 1], fs[|fs| - 1];
      LaidNames(front);
      forall e | e in Laid(fs)
        ensures exists i | 0 <= i < |fs| :: e == TsEntry(Str(fs[i].key), e.val) && fs[i].value == Some(e.val)
      {
        if e in Laid(front) {
          var i :| 0 <= i < |front| && e == TsEntry(Str(front[i].key), e.val) && front[i].value == Some(e.val);
          assert e == TsEntry(Str(fs[i].key), e.val) && fs[i].value == Some(e.val);
        } else {
          assert e == TsEntry(Str(fs[|fs| - 1].key), e.val) && fs[|fs| - 1].value == Some(e.val);
        }
      }
    }
  }

  lemma FreshName(fs: seq<TsField>)
    requires fs != [] && TsIncreasing(fs)
    ensures var es := Laid(fs[..|fs| - 1]);
            forall i | 0 <= i < |es| :: !SameKey(es[i].key, Str(fs[|fs| - 1].key))
  {
    var n := |fs| - 1;
    var es := Laid(fs[..n]);
    LaidNames(fs[..n]);
    forall i | 0 <= i < |es|
      ensures !SameKey(es[i].key, Str(fs[n].key))
    {
      assert es[i] in es;
      var j :| 0 <= j < n && es[i] == TsEntry(Str(fs[..n][j].key), es[i].val) && fs[..n][j].value == Some(es[i].val);
      assert LengthFirst(fs[j].key, fs[n].key);
      LengthFirstIrreflexive(fs[n].key);
    }
  }

  /** Names in increasing order are distinct, so setting them only appends. */
  lemma {:induction false} PresentLaid(fs: seq<TsField>)
    requires TsIncreasing(fs)
    ensures TsPresent(fs) == Laid(fs)
  {
    if fs != [] {
      var front, last := fs[..|fs| - 1], fs[|fs| - 1];
      assert TsIncreasing(front);
      PresentLaid(front);
      FreshName(fs);
      hide SameKey, MapSet, TsIncreasing;
      if last.value.Some? {
        MapSetNew(Laid(front), Str(last.key), last.value.value);
      }
    }
  }

  // What Go makes of such a Map.

  /** A number or a valid string under a valid name. */
  ghost predicate Plain(rt: Runtime, f: TsField) {
    && ValidText(rt, f.key)
    && (f.value.Some? ==>
          || f.value.value.Number?
          || (f.value.value.Str? && ValidText(rt, f.value.value.text)))
  }

  ghost predicate AllPlain(rt: Runtime, fs: seq<TsField>) {
    forall i | 0 <= i < |fs| :: Plain(rt, fs[i])
  }

  predicate FieldReadable(f: TsField) {
    f.value.Some? ==> Readable(f.value.value)
  }

  ghost predicate AllReadable(fs: seq<TsField>) {
    forall i | 0 <= i < |fs| :: FieldReadable(fs[i])
  }

  /** The field Go sees. */
  function Seen(f: TsField): Field
    requires FieldReadable(f)
  {
    Field(f.key, if f.value.Some? then Some(GoTree(f.value.value)) else None)
  }

  ghost function SeenAll(fs: seq<TsField>): (gs: seq<Field>)
    requires AllReadable(fs)
    ensures |gs| == |fs| && forall i | 0 <= i < |fs| :: gs[i] == Seen(fs[i])
  {
    if fs == [] then []
    else
      assert AllReadable(fs[..|fs| - 1]) && FieldReadable(fs[|fs| - 1]);
      SeenAll(fs[..|fs| - 1]) + [Seen(fs[|fs| - 1])]
  }

  lemma {:induction false} Appended(rt: Runtime, a: seq<TsValue>, b: seq<TsValue>)
    ensures ReadableAll(a + b) <==> ReadableAll(a) && ReadableAll(b)
    ensures ReadableAll(a + b) ==> GoTreeAll(a + b) == GoTreeAll(a) + GoTreeAll(b)
    ensures TsSizedAll(a + b) <==> TsSizedAll(a) && TsSizedAll(b)
    ensures TsTextOkAll(rt, a + b) <==> TsTextOkAll(rt, a) && TsTextOkAll(rt, b)
    ensures TsHeightAll(a + b) <= if TsHeightAll(a) > TsHeightAll(b) then TsHeightAll(a) else TsHeightAll(b)
  {
    hide *;
    NoItems();
    Nothing(rt);
    if a == [] {
      assert a + b == b;
    } else {
      assert (a + b)[1..] == a[1..] + b && (a + b)[0] == a[0];
      TsListParts(rt, a);
      TsListParts(rt, a + b);
      Appended(rt, a[1..], b);
      if ReadableAll(a) && ReadableAll(b) {
        Joined([GoTree(a[0])], GoTreeAll(a[1..]), GoTreeAll(b));
      }
    }
  }

  lemma Joined(a: seq<Value>, b: seq<Value>, c: seq<Value>)
    ensures a + b + c == a + (b + c)
  {
  }

  lemma PairOf(rt: Runtime, a: TsValue, b: TsValue)
    ensures ReadableAll([a, b]) <==> Readable(a) && Readable(b)
    ensures ReadableAll([a, b]) ==> GoTreeAll([a, b]) == [GoTree(a), GoTree(b)]
    ensures TsSizedAll([a, b]) <==> TsSized(a) && TsSized(b)
    ensures TsTextOkAll(rt, [a, b]) <==> TsTextOk(rt, a) && TsTextOk(rt, b)
    ensures TsHeightAll([a, b]) == if TsHeight(a) > TsHeight(b) then TsHeight(a) else TsHeight(b)
  {
    hide Readable, GoTree, TsSized, TsTextOk, TsHeight;
    TsListParts(rt, [a, b]);
    TsListParts(rt, [b]);
    assert [a, b][1..] == [b] && [b][1..] == [];
    NoItems();
    Nothing(rt);
  }

  lemma Nothing(rt: Runtime)
    ensures TsSizedAll([]) && TsTextOkAll(rt, []) && TsHeightAll([]) == 0
  {
  }

  lemma LeafTree(rt: Runtime, t: TsValue)
    requires t.Number? || t.Str?
    ensures Readable(t) <==> LeadReadable(t)
    ensures Readable(t) ==> GoFrame(t).Leaf? && GoTree(t) == GoFrame(t).v
    ensures TsSized(t) <==> LeadSized(t)
    ensures TsTextOk(rt, t) <==> (t.Str? ==> rt.utf8(t.text))
    ensures TsHeight(t) == 0
  {
    assert TsKids(t) == [];
    NoItems();
    Nothing(rt);
    assert Readable(t) ==> GoTree(t) == Build(GoFrame(t), []);
    hide IsInteger, IntOf;
  }

  /** A list of scalars a receiver takes apart at height 0, and as what if it is readable. */
  ghost predicate Well(rt: Runtime, ts: seq<TsValue>, readable: bool, vs: seq<Value>) {
    && (ReadableAll(ts) <==> readable)
    && (readable ==> GoTreeAll(ts) == vs)
    && TsSizedAll(ts) && TsTextOkAll(rt, ts) && TsHeightAll(ts) == 0
  }

  lemma WellAppended(rt: Runtime, a: seq<TsValue>, b: seq<TsValue>, r: bool, q: bool, vs: seq<Value>, ws: seq<Value>)
    requires Well(rt, a, r, vs) && Well(rt, b, q, ws)
    ensures Well(rt, a + b, r && q, vs + ws)
  {
    hide ReadableAll, GoTreeAll, TsSizedAll, TsTextOkAll, TsHeightAll;
    Appended(rt, a, b);
  }

  lemma WellUnread(rt: Runtime, ts: seq<TsValue>, vs: seq<Value>, ws: seq<Value>)
    requires Well(rt, ts, false, vs)
    ensures Well(rt, ts, false, ws)
  {
  }

  function LayFlat(f: TsField): seq<TsValue> {
    if f.value.Some? then [Str(f.key), f.value.value] else []
  }

  function SeenFlat(f: TsField): seq<Value> {
    if f.value.Some? && FieldReadable(f) then [Text(f.key), GoTree(f.value.value)] else []
  }

  lemma LayWell(rt: Runtime, f: TsField)
    requires Plain(rt, f)
    ensures Well(rt, LayFlat(f), FieldReadable(f), SeenFlat(f))
  {
    if f.value.Some? {
      LeafTree(rt, Str(f.key));
      LeafTree(rt, f.value.value);
      hide Readable, GoTree, TsSized, TsTextOk, TsHeight, ReadableAll, GoTreeAll, TsSizedAll, TsTextOkAll,
        TsHeightAll;
      PairOf(rt, Str(f.key), f.value.value);
    } else {
      NoItems();
      Nothing(rt);
    }
  }

  lemma LaidStep(rt: Runtime, fs: seq<TsField>)
    requires fs != []
    ensures Laid(fs) == Laid(fs[..|fs| - 1]) + Lay(fs[|fs| - 1])
    ensures AllPlain(rt, fs) ==> AllPlain(rt, fs[..|fs| - 1]) && Plain(rt, fs[|fs| - 1])
    ensures AllReadable(fs) <==> AllReadable(fs[..|fs| - 1]) && FieldReadable(fs[|fs| - 1])
    ensures AllReadable(fs) ==> SeenAll(fs) == SeenAll(fs[..|fs| - 1]) + [Seen(fs[|fs| - 1])]
  {
    hide Plain, FieldReadable, Lay, Seen;
    if AllReadable(fs[..|fs| - 1]) && FieldReadable(fs[|fs| - 1]) {
      forall i | 0 <= i < |fs|
        ensures FieldReadable(fs[i])
      {
        assert i < |fs| - 1 ==> fs[..|fs| - 1][i] == fs[i];
      }
    }
  }

  lemma LaidFlat(fs: seq<TsField>)
    requires fs != []
    ensures TsFlatten(Laid(fs)) == TsFlatten(Laid(fs[..|fs| - 1])) + LayFlat(fs[|fs| - 1])
  {
    var f := fs[|fs| - 1];
    if f.value.Some? {
      hide TsFlatten;
      KeysSnoc(Laid(fs[..|fs| - 1]), TsEntry(Str(f.key), f.value.value));
    } else {
      hide TsFlatten;
      assert Laid(fs) == Laid(fs[..|fs| - 1]);
    }
  }

  lemma SeenGrows(gs: seq<Field>, f: TsField)
    requires FieldReadable(f)
    ensures Flatten(Present(gs + [Seen(f)])) == Flatten(Present(gs)) + SeenFlat(f)
  {
    hide GoTree, Readable, Flatten;
    var all := gs + [Seen(f)];
    assert all[..|gs|] == gs && all[|all| - 1] == Seen(f);
    if f.value.Some? {
      FlattenSnoc(Present(gs), Entry(Text(f.key), GoTree(f.value.value)));
    } else {
      assert Present(all) == Present(gs);
    }
  }

  ghost predicate LaidWell(rt: Runtime, fs: seq<TsField>) {
    Well(rt, TsFlatten(Laid(fs)), AllReadable(fs), if AllReadable(fs) then Flatten(Present(SeenAll(fs))) else [])
  }

  lemma LaidNothing(rt: Runtime)
    ensures LaidWell(rt, [])
  {
    NoItems();
    Nothing(rt);
  }

  lemma LaidGrows(rt: Runtime, fs: seq<TsField>)
    requires fs != [] && AllPlain(rt, fs) && LaidWell(rt, fs[..|fs| - 1])
    ensures LaidWell(rt, fs)
  {
    var front, f := fs[..|fs| - 1], fs[|fs| - 1];
    LaidStep(rt, fs);
    LaidFlat(fs);
    hide AllPlain, Plain, Laid, AllReadable, FieldReadable, TsFlatten, Present, Flatten, SeenAll, Seen, Well, LayFlat,
      SeenFlat, Lay;
    LayWell(rt, f);
    var vs := if AllReadable(front) then Flatten(Present(SeenAll(front))) else [];
    WellAppended(rt, TsFlatten(Laid(front)), LayFlat(f), AllReadable(front), FieldReadable(f), vs, SeenFlat(f));
    if AllReadable(fs) {
      SeenGrows(SeenAll(front), f);
    } else {
      WellUnread(rt, TsFlatten(Laid(fs)), vs + SeenFlat(f), []);
    }
  }

  lemma {:induction false} LaidFacts(rt: Runtime, fs: seq<TsField>)
    requires AllPlain(rt, fs)
    ensures LaidWell(rt, fs)
  {
    hide LaidWell, Plain;
    if fs == [] {
      LaidNothing(rt);
    } else {
      LaidFacts(rt, fs[..|fs| - 1]);
      LaidGrows(rt, fs);
    }
  }

  /** The Map TypeScript fills, as a receiver judges it. */
  lemma DictFacts(rt: Runtime, fs: seq<TsField>)
    requires TsIncreasing(fs) && AllPlain(rt, fs) && |fs| < TWO_64
    ensures var t := Dict(TsPresent(fs));
            && (Readable(t) <==> AllReadable(fs))
            && (AllReadable(fs) ==> GoTree(t) == Map(Present(SeenAll(fs))))
            && TsSized(t) && TsTextOk(rt, t) && TsHeight(t) <= 1
  {
    LaidFacts(rt, fs);
    PresentLaid(fs);
    hide *;
    DictOfLaid(rt, fs);
  }

  lemma DictOfLaid(rt: Runtime, fs: seq<TsField>)
    requires LaidWell(rt, fs) && |fs| < TWO_64
    ensures var t := Dict(Laid(fs));
            && (Readable(t) <==> AllReadable(fs))
            && (AllReadable(fs) ==> GoTree(t) == Map(Present(SeenAll(fs))))
            && TsSized(t) && TsTextOk(rt, t) && TsHeight(t) <= 1
  {
    var t := Dict(Laid(fs));
    DictFrame(t);
    TsItemParts(rt, t);
    hide Readable, GoTree, TsSized, TsTextOk, TsHeight, AllReadable, Laid, TsFlatten, Present, Flatten, SeenAll,
      ReadableAll, GoTreeAll, TsSizedAll, TsTextOkAll, TsHeightAll, LeadReadable, GoFrame, Pair;
    if AllReadable(fs) {
      PairFlatten(Present(SeenAll(fs)));
    }
  }

  lemma DictFrame(t: TsValue)
    requires t.Dict?
    ensures LeadReadable(t) && GoFrame(t) == MapOf(|t.entries|) && TsKids(t) == TsFlatten(t.entries) && !t.Str?
    ensures |t.entries| < TWO_64 && TsSizedAll(TsKids(t)) ==> TsSized(t)
  {
  }

  function SeenOption(v: Option<TsValue>): Option<Value>
    requires v.Some? ==> Readable(v.value)
  {
    if v.Some? then Some(GoTree(v.value)) else None
  }

  /** The record TypeScript wrote, seen from Go: every declared key holds what Go reads for its field. */
  ghost predicate HoldsSeen(root: Value, fs: seq<TsField>)
    requires AllReadable(fs)
  {
    forall i | 0 <= i < |fs| :: FieldReadable(fs[i]) && MapGet(root, fs[i].key) == SeenOption(fs[i].value)
  }

  lemma HeldSeen(root: Value, fs: seq<TsField>, i: nat)
    requires AllReadable(fs) && HoldsSeen(root, fs) && i < |fs|
    ensures FieldReadable(fs[i]) && MapGet(root, fs[i].key) == SeenOption(fs[i].value)
  {
  }

  lemma SeenHeld(rt: Runtime, fs: seq<TsField>, root: Value)
    requires TsIncreasing(fs) && AllPlain(rt, fs) && AllReadable(fs) && root == Map(Present(SeenAll(fs)))
    requires Norm(root) == root
    ensures HoldsSeen(root, fs)
  {
    var gs := SeenAll(fs);
    SeenIncreasing(fs);
    hide Norm, Present, LengthFirst, Increasing, TsIncreasing;
    forall i | 0 <= i < |fs|
      ensures FieldReadable(fs[i]) && MapGet(root, fs[i].key) == SeenOption(fs[i].value)
    {
      LookupFinds(gs, i);
      assert gs[i] == Seen(fs[i]);
    }
  }

  lemma SeenIncreasing(fs: seq<TsField>)
    requires TsIncreasing(fs) && AllReadable(fs)
    ensures Increasing(SeenAll(fs))
  {
    var gs := SeenAll(fs);
    hide LengthFirst;
    forall i, j | 0 <= i < j < |gs|
      ensures LengthFirst(gs[i].key, gs[j].key)
    {
      assert gs[i] == Seen(fs[i]) && gs[j] == Seen(fs[j]);
    }
  }

  /** Go accepts a record TypeScript wrote exactly when each of its numbers is readable, and then finds every
      field under its key; otherwise it reports the range of negative integers. */
  lemma WrittenByTypeScript(rt: Runtime, fs: seq<TsField>)
    requires TsIncreasing(fs) && AllPlain(rt, fs) && |fs| < TWO_64
    ensures var r := Decode(rt, TsEnc(Dict(TsPresent(fs))));
            if AllReadable(fs) then r.Ok? && HoldsSeen(r.value, fs) else r == Err(NegativeOutOfRange)
  {
    var t := Dict(TsPresent(fs));
    hide *;
    DictFacts(rt, fs);
    HeightRoom();
    GoDecodes(rt, t);
    if AllReadable(fs) {
      GoTreeNormal(t);
      SeenHeld(rt, fs, GoTree(t));
    }
  }

  lemma HeightRoom()
    ensures 1 <= DEPTH_LIMIT
  {
  }

  // Field by field.

  function TsNumber(key: string, bits: Option<U64>): TsField {
    TsField(Ascii(key), if bits.Some? then Some(Number(bits.value)) else None)
  }

  function TsText(key: string, s: Option<seq<Byte>>): TsField {
    TsField(Ascii(key), if s.Some? then Some(Str(s.value)) else None)
  }

  predicate NumberReadable(bits: Option<U64>) {
    bits.Some? ==> LeadReadable(Number(bits.value))
  }

  /** What Go sees for a JavaScript number. */
  function NumberSeen(bits: U64): Value
    requires LeadReadable(Number(bits))
  {
    if IsInteger(bits) then GoInt(IntOf(bits)) else Float(bits)
  }

  lemma NumberFacts(rt: Runtime, key: string, bits: Option<U64>)
    requires ValidText(rt, Ascii(key))
    ensures Plain(rt, TsNumber(key, bits)) && (FieldReadable(TsNumber(key, bits)) <==> NumberReadable(bits))
    ensures NumberReadable(bits) ==>
      SeenOption(TsNumber(key, bits).value) == if bits.Some? then Some(NumberSeen(bits.value)) else None
  {
    if bits.Some? {
      LeafTree(rt, Number(bits.value));
    }
    hide Readable, GoTree, IsInteger, IntOf, Ascii, GoInt;
  }

  lemma TextFacts(rt: Runtime, key: string, s: Option<seq<Byte>>)
    requires ValidText(rt, Ascii(key)) && (s.Some? ==> ValidText(rt, s.value))
    ensures Plain(rt, TsText(key, s)) && FieldReadable(TsText(key, s))
    ensures SeenOption(TsText(key, s).value) == if s.Some? then Some(Text(s.value)) else None
  {
    if s.Some? {
      LeafTree(rt, Str(s.value));
    }
    hide Readable, GoTree, Ascii;
  }

  /** The same names as a Go record whose names increase. */
  ghost predicate SameNames(fs: seq<TsField>, gs: seq<Field>) {
    |fs| == |gs| && forall i | 0 <= i < |fs| :: fs[i].key == gs[i].key
  }

  lemma NamesIncrease(rt: Runtime, fs: seq<TsField>, gs: seq<Field>)
    requires AcceptsAscii(rt) && SameNames(fs, gs) && Increasing(gs) && AsciiKeys(gs)
    ensures TsIncreasing(fs) && forall i | 0 <= i < |fs| :: ValidText(rt, fs[i].key)
  {
    hide LengthFirst;
    forall i | 0 <= i < |fs|
      ensures ValidText(rt, fs[i].key)
    {
      assert fs[i].key == gs[i].key;
    }
  }

  // Numbers that stand for counts.

  /** The integer Go makes of an integer of any size: its own value where that fits, else its low 64 bits. */
  function Cut(n: int): int {
    if n >= 0 then WireArg(n) else -1 - WireArg(n)
  }

  predicate IsCount(bits: U64) {
    IsInteger(bits) && 0 <= IntOf(bits) < TWO_64
  }

  predicate IsI64(bits: U64) {
    IsInteger(bits) && -0x8000_0000_0000_0000 <= IntOf(bits) <= MAX_I64
  }

  /** A number Go takes for a count, and one it takes for a signed integer, once cut to 64 bits. */
  predicate TakenAsCount(bits: U64) {
    IsInteger(bits) && IntOf(bits) >= 0
  }

  predicate TakenAsI64(bits: U64) {
    IsInteger(bits) && WireArg(IntOf(bits)) <= MAX_I64
  }

  lemma CutFits(n: int)
    ensures n >= 0 ==> 0 <= Cut(n) < TWO_64
    ensures WireArg(n) <= MAX_I64 ==> -0x8000_0000_0000_0000 <= Cut(n) <= MAX_I64
    ensures Cut(n) == n <==> -TWO_64 <= n < TWO_64
  {
  }

  lemma CountField(bits: U64)
    requires LeadReadable(Number(bits))
    ensures AsU64(NumberSeen(bits)) == if !IsInteger(bits) then Err(WrongType)
                                       else if IntOf(bits) < 0 then Err(NegativeUnsigned)
                                       else Ok(WireArg(IntOf(bits)))
  {
    hide IsInteger, IntOf;
  }

  lemma I64Field(bits: U64)
    requires LeadReadable(Number(bits))
    ensures AsI64(NumberSeen(bits)) == if !IsInteger(bits) then Err(WrongType)
                                       else if WireArg(IntOf(bits)) > MAX_I64 then Err(IntegerOverflow)
                                       else Ok(Cut(IntOf(bits)))
  {
    hide IsInteger, IntOf;
  }

  // RecurrenceRule.

  datatype TsRule = TsRule(
    freq: seq<Byte>,
    interval: U64,
    weekday: Option<seq<Byte>>,
    ordinal: Option<U64>,
    dayOfMonth: Option<U64>)

  predicate TsRuleValid(rt: Runtime, t: TsRule) {
    ValidText(rt, t.freq) && (t.weekday.Some? ==> ValidText(rt, t.weekday.value))
  }

  predicate TsRuleDeclared(t: TsRule) {
    t.freq in Frequencies() && (t.weekday.Some? ==> t.weekday.value in Weekdays())
  }

  function TsRuleFields(t: TsRule): (fs: seq<TsField>)
    ensures |fs| == 5
  {
    [
      TsText("freq", Some(t.freq)),
      TsNumber("ordinal", t.ordinal),
      TsText("weekday", t.weekday),
      TsNumber("interval", Some(t.interval)),
      TsNumber("day_of_month", t.dayOfMonth)
    ]
  }

  method ToRecurrenceRuleCborValue(t: TsRule) returns (v: TsValue)
    ensures v == Dict(TsPresent(TsRuleFields(t)))
  {
    hide MapSet, Ascii, TsPresent;
    ghost var fs := TsRuleFields(t);
    TsPresentStep(fs, 0);
    var csilMap := MapSet([], Str(Ascii("freq")), Str(t.freq));
    TsPresentStep(fs, 1);
    if t.ordinal.Some? {
      csilMap := MapSet(csilMap, Str(Ascii("ordinal")), Number(t.ordinal.value));
    }
    TsPresentStep(fs, 2);
    if t.weekday.Some? {
      csilMap := MapSet(csilMap, Str(Ascii("weekday")), Str(t.weekday.value));
    }
    TsPresentStep(fs, 3);
    csilMap := MapSet(csilMap, Str(Ascii("interval")), Number(t.interval));
    TsPresentStep(fs, 4);
    if t.dayOfMonth.Some? {
      csilMap := MapSet(csilMap, Str(Ascii("day_of_month")), Number(t.dayOfMonth.value));
    }
    v := Dict(csilMap);
  }

  function RuleBytes(t: TsRule): seq<Byte> {
    TsEnc(Dict(TsPresent(TsRuleFields(t))))
  }

  predicate RuleReadable(t: TsRule) {
    NumberReadable(Some(t.interval)) && NumberReadable(t.ordinal) && NumberReadable(t.dayOfMonth)
  }

  /** The rules Go takes: declared words, and numbers that stand for integers of the right sign once cut. */
  predicate RuleTaken(t: TsRule) {
    && TsRuleDeclared(t)
    && TakenAsCount(t.interval)
    && (t.ordinal.Some? ==> TakenAsI64(t.ordinal.value))
    && (t.dayOfMonth.Some? ==> TakenAsCount(t.dayOfMonth.value))
  }

  function TakenI64(bits: U64): I64
    requires TakenAsI64(bits)
  {
    CutFits(IntOf(bits));
    Cut(IntOf(bits))
  }

  /** The rule Go makes of it. */
  function GoRule(t: TsRule): RecurrenceRule
    requires RuleTaken(t)
  {
    RecurrenceRule(
      t.freq,
      WireArg(IntOf(t.interval)),
      t.weekday,
      if t.ordinal.Some? then Some(TakenI64(t.ordinal.value)) else None,
      if t.dayOfMonth.Some? then Some(WireArg(IntOf(t.dayOfMonth.value))) else None)
  }

  function CountError(bits: U64): Error {
    if IsInteger(bits) then NegativeUnsigned else WrongType
  }

  function I64Error(bits: U64): Error {
    if IsInteger(bits) then IntegerOverflow else WrongType
  }

  /** The error for a rule Go does not take. */
  function RuleError(t: TsRule): Error {
    if !RuleReadable(t) then NegativeOutOfRange
    else if t.freq !in Frequencies() then NotInEnum
    else if !TakenAsCount(t.interval) then CountError(t.interval)
    else if t.weekday.Some? && t.weekday.value !in Weekdays() then NotInEnum
    else if t.ordinal.Some? && !TakenAsI64(t.ordinal.value) then I64Error(t.ordinal.value)
    else CountError(if t.dayOfMonth.Some? then t.dayOfMonth.value else 0)
  }

  lemma GoKeys()
    ensures forall key, s :: TextField(key, s).key == Ascii(key)
    ensures forall key, n :: IntField(key, n).key == Ascii(key)
    ensures forall key, u :: UintField(key, u).key == Ascii(key)
    ensures forall key, bits :: FloatField(key, bits).key == Ascii(key)
  {
  }

  lemma TsKeys()
    ensures forall key, s :: TsText(key, s).key == Ascii(key)
    ensures forall key, bits :: TsNumber(key, bits).key == Ascii(key)
  {
  }

  lemma SameRuleNames(t: TsRule, r: RecurrenceRule)
    ensures SameNames(TsRuleFields(t), RecurrenceRuleFields(r))
  {
    GoKeys();
    TsKeys();
    hide Ascii, TsText, TsNumber, TextField, IntField, UintField;
  }

  lemma RuleNames(rt: Runtime, t: TsRule)
    requires AcceptsAscii(rt)
    ensures TsIncreasing(TsRuleFields(t))
    ensures forall i | 0 <= i < 5 :: ValidText(rt, TsRuleFields(t)[i].key)
  {
    var r := RecurrenceRule([], 0, None, None, None);
    RecurrenceRuleKeysIncrease(r);
    SameRuleNames(t, r);
    hide Increasing, AsciiKeys, TsIncreasing, SameNames, ValidText, CanonicalKeys, Present, AcceptsAscii;
    NamesIncrease(rt, TsRuleFields(t), RecurrenceRuleFields(r));
  }

  lemma NamedText(rt: Runtime, fs: seq<TsField>, i: nat, key: string, s: Option<seq<Byte>>)
    requires i < |fs| && fs[i] == TsText(key, s) && ValidText(rt, fs[i].key) && (s.Some? ==> ValidText(rt, s.value))
    ensures Plain(rt, fs[i]) && FieldReadable(fs[i])
    ensures SeenOption(fs[i].value) == if s.Some? then Some(Text(s.value)) else None
  {
    hide Plain, FieldReadable, ValidText, Ascii, SeenOption;
    TextFacts(rt, key, s);
  }

  lemma NamedNumber(rt: Runtime, fs: seq<TsField>, i: nat, key: string, bits: Option<U64>)
    requires i < |fs| && fs[i] == TsNumber(key, bits) && ValidText(rt, fs[i].key)
    ensures Plain(rt, fs[i]) && (FieldReadable(fs[i]) <==> NumberReadable(bits))
    ensures NumberReadable(bits) ==>
      SeenOption(fs[i].value) == if bits.Some? then Some(NumberSeen(bits.value)) else None
  {
    hide Plain, FieldReadable, ValidText, Ascii, SeenOption, NumberSeen, NumberReadable;
    NumberFacts(rt, key, bits);
  }

  lemma RulePlain(rt: Runtime, t: TsRule)
    requires TsRuleValid(rt, t) && forall i | 0 <= i < 5 :: ValidText(rt, TsRuleFields(t)[i].key)
    ensures AllPlain(rt, TsRuleFields(t)) && (AllReadable(TsRuleFields(t)) <==> RuleReadable(t))
  {
    var fs := TsRuleFields(t);
    hide Plain, FieldReadable, ValidText, Ascii, SeenOption, NumberSeen, NumberReadable, TsText, TsNumber;
    NamedText(rt, fs, 0, "freq", Some(t.freq));
    NamedNumber(rt, fs, 1, "ordinal", t.ordinal);
    NamedText(rt, fs, 2, "weekday", t.weekday);
    NamedNumber(rt, fs, 3, "interval", Some(t.interval));
    NamedNumber(rt, fs, 4, "day_of_month", t.dayOfMonth);
    forall i | 0 <= i < 5
      ensures Plain(rt, fs[i]) && (RuleReadable(t) ==> FieldReadable(fs[i]))
    {
      assert i == 0 || i == 1 || i == 2 || i == 3 || i == 4;
    }
  }

  /** What Go finds under the rule's keys. */
  ghost predicate RuleSeen(root: Value, t: TsRule)
    requires RuleReadable(t)
  {
    && MapGet(root, Ascii("freq")) == Some(Text(t.freq))
    && MapGet(root, Ascii("ordinal")) == (if t.ordinal.Some? then Some(NumberSeen(t.ordinal.value)) else None)
    && MapGet(root, Ascii("weekday")) == (if t.weekday.Some? then Some(Text(t.weekday.value)) else None)
    && MapGet(root, Ascii("interval")) == Some(NumberSeen(t.interval))
    && MapGet(root, Ascii("day_of_month"))
       == (if t.dayOfMonth.Some? then Some(NumberSeen(t.dayOfMonth.value)) else None)
  }

  lemma FieldKeys(key: string, s: Option<seq<Byte>>, bits: Option<U64>)
    ensures TsText(key, s).key == Ascii(key) && TsNumber(key, bits).key == Ascii(key)
  {
  }

  lemma RuleHeld(rt: Runtime, t: TsRule, root: Value)
    requires TsRuleValid(rt, t) && RuleReadable(t)
    requires forall i | 0 <= i < 5 :: ValidText(rt, TsRuleFields(t)[i].key)
    requires AllReadable(TsRuleFields(t)) && HoldsSeen(root, TsRuleFields(t))
    ensures RuleSeen(root, t)
  {
    var fs := TsRuleFields(t);
    hide Plain, FieldReadable, ValidText, Ascii, SeenOption, NumberSeen, NumberReadable, TsText, TsNumber, MapGet,
      HoldsSeen, AllReadable;
    HeldSeen(root, fs, 0);
    HeldSeen(root, fs, 1);
    HeldSeen(root, fs, 2);
    HeldSeen(root, fs, 3);
    HeldSeen(root, fs, 4);
    NamedText(rt, fs, 0, "freq", Some(t.freq));
    NamedNumber(rt, fs, 1, "ordinal", t.ordinal);
    NamedText(rt, fs, 2, "weekday", t.weekday);
    NamedNumber(rt, fs, 3, "interval", Some(t.interval));
    NamedNumber(rt, fs, 4, "day_of_month", t.dayOfMonth);
    FieldKeys("freq", Some(t.freq), None);
    FieldKeys("ordinal", None, t.ordinal);
    FieldKeys("weekday", t.weekday, None);
    FieldKeys("interval", None, Some(t.interval));
    FieldKeys("day_of_month", None, t.dayOfMonth);
  }

  /** Reading it in schema order. */
  lemma RuleRead(t: TsRule, root: Value)
    requires RuleReadable(t) && RuleSeen(root, t)
    ensures RecurrenceRuleOf(root) == if RuleTaken(t) then Ok(GoRule(t)) else Err(RuleError(t))
  {
    CountField(t.interval);
    if t.ordinal.Some? {
      I64Field(t.ordinal.value);
    }
    if t.dayOfMonth.Some? {
      CountField(t.dayOfMonth.value);
    }
    hide Ascii, MapGet, NumberSeen, IsInteger, IntOf, LeadReadable, AsU64, AsI64, Frequencies, Weekdays;
  }

  lemma TakenReadable(t: TsRule)
    requires RuleTaken(t)
    ensures RuleReadable(t)
  {
    hide IsInteger, IntOf, Frequencies, Weekdays;
  }

  /** Any rule TypeScript can write, read by Go: taken exactly when its words are declared and its numbers
      stand for integers of the right sign, then as the rule with those integers cut to 64 bits; otherwise
      refused with the error of the first field at fault. */
  lemma RuleTransport(rt: Runtime, t: TsRule)
    requires AcceptsAscii(rt) && TsRuleValid(rt, t)
    ensures DecodeRecurrenceRule(rt, RuleBytes(t)) == if RuleTaken(t) then Ok(GoRule(t)) else Err(RuleError(t))
  {
    var fs := TsRuleFields(t);
    RuleNames(rt, t);
    RulePlain(rt, t);
    hide AcceptsAscii, TsRuleValid, TsRuleFields, TsPresent, Decode, TsEnc, AllPlain, AllReadable, HoldsSeen,
      RuleTaken,
      GoRule, RecurrenceRuleOf, TsIncreasing, ValidText, RuleReadable;
    WrittenByTypeScript(rt, fs);
    if RuleReadable(t) {
      var root := Decode(rt, RuleBytes(t)).value;
      RuleHeld(rt, t, root);
      RuleRead(t, root);
    } else if RuleTaken(t) {
      TakenReadable(t);
    }
  }

  /** The same words and the same integers. */
  predicate SameRule(t: TsRule, r: RecurrenceRule) {
    && r.freq == t.freq && r.weekday == t.weekday
    && IsInteger(t.interval) && r.interval == IntOf(t.interval)
    && r.ordinal.Some? == t.ordinal.Some?
    && (t.ordinal.Some? ==> IsInteger(t.ordinal.value) && r.ordinal.value == IntOf(t.ordinal.value))
    && r.dayOfMonth.Some? == t.dayOfMonth.Some?
    && (t.dayOfMonth.Some? ==> IsInteger(t.dayOfMonth.value) && r.dayOfMonth.value == IntOf(t.dayOfMonth.value))
  }

  /** Numbers of the record's Go types. */
  predicate RuleTyped(t: TsRule) {
    && IsCount(t.interval)
    && (t.ordinal.Some? ==> IsI64(t.ordinal.value))
    && (t.dayOfMonth.Some? ==> IsCount(t.dayOfMonth.value))
  }

  lemma CutExact(bits: U64)
    requires IsInteger(bits)
    ensures TakenAsCount(bits) && WireArg(IntOf(bits)) == IntOf(bits) <==> IsCount(bits)
    ensures TakenAsI64(bits) && Cut(IntOf(bits)) == IntOf(bits) <==> IsI64(bits)
  {
    hide IsInteger, IntOf;
  }

  /** A rule arrives as the same rule exactly when its words are declared and its numbers are of their types. */
  lemma RuleArrives(rt: Runtime, t: TsRule)
    requires AcceptsAscii(rt) && TsRuleValid(rt, t)
    ensures var r := DecodeRecurrenceRule(rt, RuleBytes(t));
            r.Ok? && SameRule(t, r.value) <==> TsRuleDeclared(t) && RuleTyped(t)
  {
    RuleTransport(rt, t);
    hide AcceptsAscii, TsRuleValid, RuleBytes, DecodeRecurrenceRule, TsRuleDeclared, IsInteger, IntOf, IsCount, IsI64,
      TakenAsCount, TakenAsI64, RuleError, Cut;
    SoundNumber(t.interval);
    if t.ordinal.Some? {
      SoundNumber(t.ordinal.value);
    }
    if t.dayOfMonth.Some? {
      SoundNumber(t.dayOfMonth.value);
    }
  }

  lemma SoundNumber(bits: U64)
    ensures IsCount(bits) <==> IsInteger(bits) && TakenAsCount(bits) && WireArg(IntOf(bits)) == IntOf(bits)
    ensures IsI64(bits) <==> IsInteger(bits) && TakenAsI64(bits) && Cut(IntOf(bits)) == IntOf(bits)
    ensures (TakenAsCount(bits) ==> IsInteger(bits)) && (TakenAsI64(bits) ==> IsInteger(bits))
  {
    if IsInteger(bits) {
      CutExact(bits);
    }
    hide IsInteger, IntOf;
  }

  // Location. Both sides hold the coordinates as binary64 numbers, so one type serves for both.

  function TsLocationFields(l: Location): (fs: seq<TsField>)
    ensures |fs| == 8
  {
    [
      TsText("name", Some(l.name)),
      TsText("region", Some(l.region)),
      TsText("address", Some(l.address)),
      TsText("country", Some(l.country)),
      TsNumber("latitude", l.latitude),
      TsText("locality", Some(l.locality)),
      TsNumber("longitude", l.longitude),
      TsText("postal_code", Some(l.postalCode))
    ]
  }

  method ToLocationCborValue(l: Location) returns (v: TsValue)
    ensures v == Dict(TsPresent(TsLocationFields(l)))
  {
    hide MapSet, Ascii, TsPresent;
    ghost var fs := TsLocationFields(l);
    TsPresentStep(fs, 0);
    var csilMap := MapSet([], Str(Ascii("name")), Str(l.name));
    TsPresentStep(fs, 1);
    csilMap := MapSet(csilMap, Str(Ascii("region")), Str(l.region));
    TsPresentStep(fs, 2);
    csilMap := MapSet(csilMap, Str(Ascii("address")), Str(l.address));
    TsPresentStep(fs, 3);
    csilMap := MapSet(csilMap, Str(Ascii("country")), Str(l.country));
    TsPresentStep(fs, 4);
    if l.latitude.Some? {
      csilMap := MapSet(csilMap, Str(Ascii("latitude")), Number(l.latitude.value));
    }
    TsPresentStep(fs, 5);
    csilMap := MapSet(csilMap, Str(Ascii("locality")), Str(l.locality));
    TsPresentStep(fs, 6);
    if l.longitude.Some? {
      csilMap := MapSet(csilMap, Str(Ascii("longitude")), Number(l.longitude.value));
    }
    TsPresentStep(fs, 7);
    csilMap := MapSet(csilMap, Str(Ascii("postal_code")), Str(l.postalCode));
    v := Dict(csilMap);
  }

  function LocationBytes(l: Location): seq<Byte> {
    TsEnc(Dict(TsPresent(TsLocationFields(l))))
  }

  predicate CoordinatesReadable(l: Location) {
    NumberReadable(l.latitude) && NumberReadable(l.longitude)
  }

  lemma SameLocationNames(l: Location)
    ensures SameNames(TsLocationFields(l), LocationFields(l))
  {
    GoKeys();
    TsKeys();
    hide Ascii, TsText, TsNumber, TextField, FloatField;
  }

  lemma LocationNames(rt: Runtime, l: Location)
    requires AcceptsAscii(rt)
    ensures TsIncreasing(TsLocationFields(l))
    ensures forall i | 0 <= i < 8 :: ValidText(rt, TsLocationFields(l)[i].key)
  {
    LocationKeysIncrease(l);
    SameLocationNames(l);
    hide Increasing, AsciiKeys, TsIncreasing, SameNames, ValidText, CanonicalKeys, Present, AcceptsAscii;
    NamesIncrease(rt, TsLocationFields(l), LocationFields(l));
  }

  lemma LocationPlain(rt: Runtime, l: Location)
    requires LocationValid(rt, l) && forall i | 0 <= i < 8 :: ValidText(rt, TsLocationFields(l)[i].key)
    ensures AllPlain(rt, TsLocationFields(l)) && (AllReadable(TsLocationFields(l)) <==> CoordinatesReadable(l))
  {
    var fs := TsLocationFields(l);
    hide Plain, FieldReadable, ValidText, Ascii, SeenOption, NumberSeen, NumberReadable, TsText, TsNumber;
    NamedText(rt, fs, 0, "name", Some(l.name));
    NamedText(rt, fs, 1, "region", Some(l.region));
    NamedText(rt, fs, 2, "address", Some(l.address));
    NamedText(rt, fs, 3, "country", Some(l.country));
    NamedNumber(rt, fs, 4, "latitude", l.latitude);
    NamedText(rt, fs, 5, "locality", Some(l.locality));
    NamedNumber(rt, fs, 6, "longitude", l.longitude);
    NamedText(rt, fs, 7, "postal_code", Some(l.postalCode));
    forall i | 0 <= i < 8
      ensures Plain(rt, fs[i]) && (CoordinatesReadable(l) ==> FieldReadable(fs[i]))
    {
      assert i == 0 || i == 1 || i == 2 || i == 3 || i == 4 || i == 5 || i == 6 || i == 7;
    }
  }

  /** What Go reads for an optional coordinate. */
  function Coordinate(rt: Runtime, c: Option<U64>): Result<Option<U64>> {
    match c
    case None => Ok(None)
    case Some(bits) => var x :- Transport.GoFloat(rt, bits); Ok(Some(x))
  }

  lemma CoordinateRead(rt: Runtime, bits: U64)
    requires LeadReadable(Number(bits))
    ensures AsF64(NumberSeen(bits)) == Transport.GoFloat(rt, bits) && Transport.GoFloat(rt, bits).Ok?
  {
    var t := Number(bits);
    LeafTree(rt, t);
    assert AsF64(NumberSeen(bits)).Ok?;
    hide TsSized, TsTextOk, TsHeight, Readable, GoTree, Decode, TsEnc, IsInteger, IntOf, AsF64;
    HeightRoom();
    GoDecodes(rt, t);
  }

  lemma TextFound(rt: Runtime, fs: seq<TsField>, i: nat, key: string, s: seq<Byte>, root: Value)
    requires AllReadable(fs) && HoldsSeen(root, fs) && i < |fs| && fs[i] == TsText(key, Some(s))
    requires ValidText(rt, fs[i].key) && ValidText(rt, s)
    ensures Require(root, Ascii(key)) == Ok(Text(s))
  {
    hide Plain, FieldReadable, ValidText, Ascii, SeenOption, TsText, MapGet, HoldsSeen, AllReadable;
    HeldSeen(root, fs, i);
    NamedText(rt, fs, i, key, Some(s));
    FieldKeys(key, Some(s), None);
  }

  lemma CoordinateFound(rt: Runtime, fs: seq<TsField>, i: nat, key: string, c: Option<U64>, root: Value)
    requires AllReadable(fs) && HoldsSeen(root, fs) && i < |fs| && fs[i] == TsNumber(key, c)
    requires ValidText(rt, fs[i].key) && NumberReadable(c)
    ensures Optional(MapGet(root, Ascii(key)), AsF64) == Coordinate(rt, c) && Coordinate(rt, c).Ok?
  {
    if c.Some? {
      CoordinateRead(rt, c.value);
    }
    hide Plain, FieldReadable, ValidText, Ascii, SeenOption, TsNumber, MapGet, HoldsSeen, AllReadable, NumberSeen,
      AsF64,
      Transport.GoFloat;
    HeldSeen(root, fs, i);
    NamedNumber(rt, fs, i, key, c);
    FieldKeys(key, None, c);
  }

  /** Reading it in schema order. */
  lemma LocationSeenRead(rt: Runtime, l: Location, root: Value)
    requires LocationValid(rt, l) && CoordinatesReadable(l)
    requires forall i | 0 <= i < 8 :: ValidText(rt, TsLocationFields(l)[i].key)
    requires AllReadable(TsLocationFields(l)) && HoldsSeen(root, TsLocationFields(l))
    ensures Coordinate(rt, l.latitude).Ok? && Coordinate(rt, l.longitude).Ok?
    ensures LocationOf(root)
         == Ok(l.(latitude := Coordinate(rt, l.latitude).value, longitude := Coordinate(rt, l.longitude).value))
  {
    var fs := TsLocationFields(l);
    hide HoldsSeen, AllReadable, ValidText, Ascii, MapGet, Require, NumberReadable, Coordinate, TsNumber, TsText,
      AsF64,
      Optional;
    TextFound(rt, fs, 0, "name", l.name, root);
    TextFound(rt, fs, 1, "region", l.region, root);
    TextFound(rt, fs, 2, "address", l.address, root);
    TextFound(rt, fs, 3, "country", l.country, root);
    CoordinateFound(rt, fs, 4, "latitude", l.latitude, root);
    TextFound(rt, fs, 5, "locality", l.locality, root);
    CoordinateFound(rt, fs, 6, "longitude", l.longitude, root);
    TextFound(rt, fs, 7, "postal_code", l.postalCode, root);
  }

  /** A coordinate Go reads as it was sent: no negative zero, no integer outside int64 and uint64. */
  predicate Survives(c: Option<U64>) {
    c.Some? ==> c.value != NEG_ZERO && (IsInteger(c.value) ==> IntInRange(IntOf(c.value)))
  }

  lemma CoordinateSurvives(rt: Runtime, c: Option<U64>)
    ensures Coordinate(rt, c) == Ok(c) <==> Survives(c)
    ensures Survives(c) ==> NumberReadable(c)
  {
    hide Transport.GoFloat, IsInteger, IntOf;
    if c.Some? {
      Transport.NumbersThatSurvive(rt, c.value);
    }
  }

  /** Any location TypeScript can write, read by Go: accepted exactly when no coordinate reads as less than
      the least int64, then as the location with the coordinates Go's float reader makes of the two, which is
      the same location exactly when both survive. */
  lemma LocationTransport(rt: Runtime, l: Location)
    requires AcceptsAscii(rt) && LocationValid(rt, l)
    ensures var r := DecodeLocation(rt, LocationBytes(l));
            && (if CoordinatesReadable(l) then
                  && Coordinate(rt, l.latitude).Ok? && Coordinate(rt, l.longitude).Ok?
                  && r == Ok(l.(latitude := Coordinate(rt, l.latitude).value,
                                longitude := Coordinate(rt, l.longitude).value))
                else r == Err(NegativeOutOfRange))
            && (r == Ok(l) <==> Survives(l.latitude) && Survives(l.longitude))
  {
    var fs := TsLocationFields(l);
    LocationNames(rt, l);
    LocationPlain(rt, l);
    CoordinateSurvives(rt, l.latitude);
    CoordinateSurvives(rt, l.longitude);
    hide AcceptsAscii, LocationValid, TsLocationFields, TsPresent, Decode, TsEnc, AllPlain, AllReadable, HoldsSeen,
      LocationOf, TsIncreasing, ValidText, NumberReadable, Survives, Coordinate;
    WrittenByTypeScript(rt, fs);
    if CoordinatesReadable(l) {
      LocationSeenRead(rt, l, Decode(rt, LocationBytes(l)).value);
    }
  }
}
