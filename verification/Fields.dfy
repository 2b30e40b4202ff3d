/** The record layer's common part: first-match lookup, range-checked readers, list and map helpers,
    and what a map of declared fields guarantees whatever subset of them is present. */
module Fields {
  import opened Machine
  import opened CborTree
  import opened Encoder
  import opened Parser
  import opened Float64
  import opened KeyOrder
  import Codec

  // Lookup.

  /** First entry whose key is this text. */
  function Get(es: seq<Entry>, key: seq<Byte>): Option<Value> {
    if es == [] then None
    else if es[0].key == Text(key) then Some(es[0].val)
    else Get(es[1..], key)
  }

  function MapGet(v: Value, key: seq<Byte>): Option<Value> {
    if v.Map? then Get(v.entries, key) else None
  }

  /** The entry the search stops at. */
  ghost predicate FirstMatch(es: seq<Entry>, key: seq<Byte>, i: int) {
    && 0 <= i < |es| && es[i].key == Text(key)
    && forall j | 0 <= j < i :: es[j].key != Text(key)
  }

  lemma {:induction false} GetFirst(es: seq<Entry>, key: seq<Byte>, i: nat)
    requires FirstMatch(es, key, i)
    ensures Get(es, key) == Some(es[i].val)
  {
    if i > 0 {
      assert es[0].key != Text(key);
      assert FirstMatch(es[1..], key, i - 1);
      GetFirst(es[1..], key, i - 1);
    }
  }

  method CborMapGet(v: Value, key: seq<Byte>) returns (r: Option<Value>)
    ensures r == MapGet(v, key)
    ensures r.Some? <==> v.Map? && exists i :: FirstMatch(v.entries, key, i)
    ensures forall i :: v.Map? && FirstMatch(v.entries, key, i) ==> r == Some(v.entries[i].val)
  {
    if !v.Map? {
      return None;
    }
    var es := v.entries;
    for i := 0 to |es|
      invariant forall j | 0 <= j < i :: es[j].key != Text(key)
    {
      if es[i].key == Text(key) {
        assert FirstMatch(es, key, i);
        GetFirst(es, key, i);
        return Some(es[i].val);
      }
    }
    GetAbsent(es, key);
    return None;
  }

  function Require(v: Value, key: seq<Byte>): Result<Value> {
    match MapGet(v, key)
    case Some(x) => Ok(x)
    case None => Err(MissingField)
  }

  // Readers.

  function AsI64(v: Value): Result<I64> {
    match v
    case Uint(u) => if u > MAX_I64 then Err(IntegerOverflow) else Ok(u)
    case Int(i) => Ok(i)
    case _ => Err(WrongType)
  }

  function AsU64(v: Value): Result<U64> {
    match v
    case Uint(u) => Ok(u)
    case Int(i) => if i < 0 then Err(NegativeUnsigned) else Ok(i)
    case _ => Err(WrongType)
  }

  function AsF64(v: Value): Result<U64> {
    match v
    case Float(bits) => Ok(bits)
    case Uint(u) => Ok(OfNat(u))
    case Int(i) => Ok(OfInt(i))
    case _ => Err(WrongType)
  }

  function AsBool(v: Value): Result<bool> {
    if v.Bool? then Ok(v.b) else Err(WrongType)
  }

  function AsText(v: Value): Result<seq<Byte>> {
    if v.Text? then Ok(v.text) else Err(WrongType)
  }

  function AsBytes(v: Value): Result<seq<Byte>> {
    if v.Bytes? then Ok(v.data) else Err(WrongType)
  }

  function AsArray(v: Value): Result<seq<Value>> {
    if v.Array? then Ok(v.items) else Err(WrongType)
  }

  function AsMap(v: Value): Result<seq<Entry>> {
    if v.Map? then Ok(v.entries) else Err(WrongType)
  }

  /** A text of a declared vocabulary. */
  function AsMember(v: Value, members: set<seq<Byte>>): Result<seq<Byte>> {
    var s :- AsText(v);
    if s in members then Ok(s) else Err(NotInEnum)
  }

  function EncTimestamp(rt: Runtime, t: int): Value {
    Tag(0, Text(rt.formatTime(t)))
  }

  function AsTimestamp(rt: Runtime, v: Value): Result<int> {
    if !v.Tag? || v.num != 0 then Err(WrongType)
    else if !v.inner.Text? then Err(WrongType)
    else match rt.parseTime(v.inner.text)
      case Some(t) => Ok(t)
      case None => Err(BadTimestamp)
  }

  /** An optional field: absent, or present and read. */
  function Optional<T>(v: Option<Value>, read: Value -> Result<T>): Result<Option<T>> {
    match v
    case None => Ok(None)
    case Some(x) => var t :- read(x); Ok(Some(t))
  }

  /** Every int64 comes back exactly through the integer reader, and every uint64 likewise; an integer
      outside the reader's range is refused, never wrapped. */
  lemma IntegersExact(rt: Runtime, i: I64, u: U64)
    ensures Decode(rt, Enc(Int(i))).Ok? && AsI64(Decode(rt, Enc(Int(i))).value) == Ok(i)
    ensures Decode(rt, Enc(Uint(u))).Ok? && AsU64(Decode(rt, Enc(Uint(u))).value) == Ok(u)
    ensures AsU64(Decode(rt, Enc(Int(i))).value) == if i >= 0 then Ok(i) else Err(NegativeUnsigned)
    ensures AsI64(Decode(rt, Enc(Uint(u))).value) == if u <= MAX_I64 then Ok(u) else Err(IntegerOverflow)
  {
    LeafTravels(rt, Int(i));
    LeafTravels(rt, Uint(u));
  }

  lemma LeafTravels(rt: Runtime, v: Value)
    requires v.Int? || v.Uint?
    ensures Decode(rt, Enc(v)) == Ok(NormLeaf(v))
  {
    LeafFacts(rt, v);
    hide *;
    Codec.RoundTrip(rt, v);
  }

  lemma LeafFacts(rt: Runtime, v: Value)
    requires v.Int? || v.Uint?
    ensures Sized(v) && TextOk(rt, v) && Height(v) == 0 && Norm(v) == NormLeaf(v)
  {
    assert Kids(v) == [] && SizedAll([]) && TextOkAll(rt, []) && NormAll([]) == [];
    assert FrameOf(v) == Leaf(v);
  }

  // Declared fields.

  /** A declared key and its value, if the record has one. */
  datatype Field = Field(key: seq<Byte>, value: Option<Value>)

  function Ascii(s: string): (b: seq<Byte>)
    ensures |b| == |s|
  {
    seq(|s|, i requires 0 <= i < |s| => (s[i] as int) % 0x80)
  }

  function Emit(f: Field): seq<Entry> {
    if f.value.Some? then [Entry(Text(f.key), f.value.value)] else []
  }

  /** The entries an encoder lays down: present fields, in declaration order. */
  function Present(fs: seq<Field>): (es: seq<Entry>)
    ensures |es| <= |fs|
  {
    if fs == [] then [] else Present(fs[..|fs| - 1]) + Emit(fs[|fs| - 1])
  }

  lemma PresentStep(fs: seq<Field>, i: nat)
    requires i < |fs|
    ensures Present(fs[..i + 1]) == Present(fs[..i]) + Emit(fs[i])
    ensures fs[..|fs|] == fs && Present(fs[..0]) == []
  {
    assert fs[..i + 1][..i] == fs[..i];
  }

  ghost predicate Increasing(fs: seq<Field>) {
    forall i, j | 0 <= i < j < |fs| :: LengthFirst(fs[i].key, fs[j].key)
  }

  /** Neighbours in order make the whole list ordered. */
  lemma NeighboursSuffice(fs: seq<Field>)
    requires forall i | 0 <= i < |fs| - 1 :: LengthFirst(fs[i].key, fs[i + 1].key)
    ensures Increasing(fs)
  {
    forall i, j | 0 <= i < j < |fs|
      ensures LengthFirst(fs[i].key, fs[j].key)
    {
      NeighbourChain(fs, i, j);
    }
  }

  lemma {:induction false} NeighbourChain(fs: seq<Field>, i: nat, j: nat)
    requires i < j < |fs|
    requires forall i | 0 <= i < |fs| - 1 :: LengthFirst(fs[i].key, fs[i + 1].key)
    ensures LengthFirst(fs[i].key, fs[j].key)
    decreases j
  {
    if i < j - 1 {
      NeighbourChain(fs, i, j - 1);
      assert LengthFirst(fs[j - 1].key, fs[j - 1 + 1].key);
      LengthFirstTransitive(fs[i].key, fs[j - 1].key, fs[j].key);
    }
  }

  /** Two ASCII names of one length are ordered by the first place they differ. */
  lemma NamesDiffer(s: string, t: string, k: nat)
    requires |s| == |t| && k < |s| && s[..k] == t[..k] && s[k] < t[k] < '\U{80}'
    ensures LengthFirst(Ascii(s), Ascii(t))
  {
    var a, b := Ascii(s), Ascii(t);
    assert a[..k] == b[..k] by {
      forall i | 0 <= i < k
        ensures a[i] == b[i]
      {
        assert s[i] == s[..k][i] == t[..k][i] == t[i];
      }
    }
    assert a[..k] + a[k..] == a && b[..k] + b[k..] == b;
    LexPrefix(a[..k], a[k..], b[k..]);
    FirstByteDecides(a[k..], b[k..]);
  }

  /** Keys of a map in strictly increasing order, all of them texts. */
  ghost predicate CanonicalKeys(es: seq<Entry>) {
    && (forall i | 0 <= i < |es| :: es[i].key.Text?)
    && (forall i, j | 0 <= i < j < |es| :: LengthFirst(es[i].key.text, es[j].key.text))
  }

  lemma {:induction false} PresentKeys(fs: seq<Field>)
    ensures forall e | e in Present(fs) :: exists i | 0 <= i < |fs| :: e.key == Text(fs[i].key)
  {
    if fs != [] {
      var front, last := fs[..|fs| - 1], fs[|fs| - 1];
      PresentKeys(front);
      forall e | e in Present(fs)
        ensures exists i | 0 <= i < |fs| :: e.key == Text(fs[i].key)
      {
        if e in Present(front) {
          var i :| 0 <= i < |front| && e.key == Text(front[i].key);
          assert e.key == Text(fs[i].key);
        } else {
          assert e.key == Text(fs[|fs| - 1].key);
        }
      }
    }
  }

  /** Whatever is present, an encoder with declared keys in order emits strictly increasing keys. */
  lemma {:induction false} EmittedKeysIncrease(fs: seq<Field>)
    requires Increasing(fs)
    ensures CanonicalKeys(Present(fs))
  {
    if fs != [] {
      var front, last := fs[..|fs| - 1], fs[|fs| - 1];
      assert Increasing(front);
      EmittedKeysIncrease(front);
      PresentKeys(front);
      var es, all := Present(front), Present(fs);
      forall i, j | 0 <= i < j < |all|
        ensures all[i].key.Text? && all[j].key.Text? && LengthFirst(all[i].key.text, all[j].key.text)
      {
        assert all[i] == es[i];
        if j == |es| {
          assert es[i] in es;
          var k :| 0 <= k < |front| && es[i].key == Text(front[k].key);
          assert LengthFirst(fs[k].key, fs[|fs| - 1].key);
        } else {
          assert all[j] == es[j];
        }
      }
    }
  }

  lemma {:induction false} GetAppend(a: seq<Entry>, b: seq<Entry>, key: seq<Byte>)
    ensures Get(a + b, key) == if Get(a, key).Some? then Get(a, key) else Get(b, key)
  {
    if a == [] {
      assert a + b == b;
    } else {
      assert (a + b)[1..] == a[1..] + b;
      GetAppend(a[1..], b, key);
    }
  }

  lemma {:induction false} GetAbsent(es: seq<Entry>, key: seq<Byte>)
    ensures Get(es, key).None? <==> forall e | e in es :: e.key != Text(key)
  {
    if es != [] {
      GetAbsent(es[1..], key);
      assert es == [es[0]] + es[1..];
    }
  }

  /** First-match lookup finds each declared field's own value, whatever else is present. */
  lemma {:induction false} LookupFinds(fs: seq<Field>, i: nat)
    requires Increasing(fs) && i < |fs|
    ensures Get(Present(fs), fs[i].key) == fs[i].value
    decreases |fs|
  {
    var front, last := fs[..|fs| - 1], fs[|fs| - 1];
    assert Increasing(front);
    GetAppend(Present(front), Emit(last), fs[i].key);
    if i < |fs| - 1 {
      LookupFinds(front, i);
      assert front[i] == fs[i] && LengthFirst(fs[i].key, last.key);
      LengthFirstIrreflexive(last.key);
      GetAbsent(Emit(last), fs[i].key);
    } else {
      NotBefore(fs);
    }
  }

  lemma NotBefore(fs: seq<Field>)
    requires Increasing(fs) && fs != []
    ensures Get(Present(fs[..|fs| - 1]), fs[|fs| - 1].key).None?
  {
    var front, last := fs[..|fs| - 1], fs[|fs| - 1];
    PresentKeys(front);
    GetAbsent(Present(front), last.key);
    forall e | e in Present(front)
      ensures e.key != Text(last.key)
    {
      var k :| 0 <= k < |front| && e.key == Text(front[k].key);
      assert LengthFirst(fs[k].key, last.key);
      LengthFirstIrreflexive(last.key);
    }
  }

  // Lookup and normalisation.

  function NormOption(v: Option<Value>): Option<Value> {
    if v.Some? then Some(Norm(v.value)) else None
  }

  function NormEntries(es: seq<Entry>): (r: seq<Entry>)
    ensures |r| == |es|
  {
    if es == [] then [] else [Entry(Norm(es[0].key), Norm(es[0].val))] + NormEntries(es[1..])
  }

  lemma {:induction false} NormFlatten(es: seq<Entry>)
    ensures NormAll(Flatten(es)) == Flatten(NormEntries(es))
  {
    if es != [] {
      NormFlatten(es[1..]);
      var vs := Flatten(es);
      assert vs[1..][1..] == Flatten(es[1..]);
      assert NormEntries(es)[1..] == NormEntries(es[1..]);
    }
  }

  lemma NormOfMap(es: seq<Entry>)
    ensures Norm(Map(es)) == Map(NormEntries(es))
  {
    NormFlatten(es);
    PairFlatten(NormEntries(es));
  }

  lemma TextKeyKept(k: Value, key: seq<Byte>)
    ensures Norm(k) == Text(key) <==> k == Text(key)
  {
    NormSameLengths(k);
  }

  lemma {:induction false} GetNorm(es: seq<Entry>, key: seq<Byte>)
    ensures Get(NormEntries(es), key) == NormOption(Get(es, key))
  {
    if es != [] {
      hide Norm;
      TextKeyKept(es[0].key, key);
      GetNorm(es[1..], key);
      assert NormEntries(es)[1..] == NormEntries(es[1..]);
    }
  }

  /** Looking a key up in what was decoded is looking it up in what was encoded. */
  lemma MapGetNorm(es: seq<Entry>, key: seq<Byte>)
    ensures MapGet(Norm(Map(es)), key) == NormOption(Get(es, key))
  {
    hide Norm, NormEntries;
    NormOfMap(es);
    GetNorm(es, key);
  }

  // Independence of undeclared entries and of order.

  ghost predicate SameDeclared(es: seq<Entry>, fs: seq<Entry>, keys: set<seq<Byte>>) {
    forall k, v | k in keys :: Entry(Text(k), v) in es <==> Entry(Text(k), v) in fs
  }

  ghost predicate DistinctDeclared(es: seq<Entry>, keys: set<seq<Byte>>) {
    forall i, j | 0 <= i < j < |es| && es[i].key.Text? && es[i].key.text in keys :: es[i].key != es[j].key
  }

  lemma {:induction false} GetIsMember(es: seq<Entry>, key: seq<Byte>)
    ensures Get(es, key).Some? ==> Entry(Text(key), Get(es, key).value) in es
  {
    if es != [] {
      GetIsMember(es[1..], key);
      assert es == [es[0]] + es[1..];
    }
  }

  /** Permuting a map whose declared keys are distinct, or adding entries under undeclared or non-text
      keys, changes no declared lookup. */
  lemma DeclaredLookup(es: seq<Entry>, fs: seq<Entry>, keys: set<seq<Byte>>, key: seq<Byte>)
    requires key in keys && SameDeclared(es, fs, keys) && DistinctDeclared(es, keys)
    ensures Get(fs, key) == Get(es, key)
  {
    GetIsMember(es, key);
    GetIsMember(fs, key);
    GetAbsent(es, key);
    GetAbsent(fs, key);
    if Get(fs, key).Some? && Get(es, key).Some? {
      var a, b := Entry(Text(key), Get(es, key).value), Entry(Text(key), Get(fs, key).value);
      assert a in es && b in es;
      var i :| 0 <= i < |es| && es[i] == a;
      var j :| 0 <= j < |es| && es[j] == b;
    } else if Get(fs, key).Some? {
      assert Entry(Text(key), Get(fs, key).value) in es;
    }
  }

  // A record on the wire.

  predicate ValidText(rt: Runtime, s: seq<Byte>) {
    rt.utf8(s) && |s| < TWO_64
  }

  /** Every UTF-8 validator accepts ASCII. */
  ghost predicate AcceptsAscii(rt: Runtime) {
    forall s | (forall i | 0 <= i < |s| :: s[i] < 0x80) :: rt.utf8(s)
  }

  /** A value that can be sent and taken back at nesting height at most `h`. */
  predicate Sendable(rt: Runtime, v: Value, h: nat) {
    Sized(v) && TextOk(rt, v) && Height(v) <= h
  }

  ghost predicate FieldsSendable(rt: Runtime, fs: seq<Field>, h: nat) {
    forall i | 0 <= i < |fs| ::
      && ValidText(rt, fs[i].key)
      && (fs[i].value.Some? ==> Sendable(rt, fs[i].value.value, h))
  }

  ghost predicate AllSendable(rt: Runtime, vs: seq<Value>, h: nat) {
    forall i | 0 <= i < |vs| :: Sendable(rt, vs[i], h)
  }

  lemma {:induction false} ListSendable(rt: Runtime, vs: seq<Value>, h: nat)
    requires AllSendable(rt, vs, h)
    ensures SizedAll(vs) && TextOkAll(rt, vs) && HeightAll(vs) <= h
  {
    if vs != [] {
      assert Sendable(rt, vs[0], h);
      forall i | 0 <= i < |vs[1..]|
        ensures Sendable(rt, vs[1..][i], h)
      {
        assert vs[1..][i] == vs[i + 1];
      }
      ListSendable(rt, vs[1..], h);
      hide Sized, TextOk, Height;
    }
  }

  lemma ArraySendable(rt: Runtime, vs: seq<Value>, h: nat)
    requires AllSendable(rt, vs, h) && |vs| < TWO_64
    ensures Sendable(rt, Array(vs), h + 1)
  {
    ListSendable(rt, vs, h);
    hide SizedAll, TextOkAll, HeightAll;
  }

  lemma KeySendable(rt: Runtime, key: seq<Byte>, h: nat)
    requires ValidText(rt, key)
    ensures Sendable(rt, Text(key), h)
  {
  }

  lemma {:induction false} EntriesSendable(rt: Runtime, es: seq<Entry>, h: nat)
    requires forall e | e in es :: Sendable(rt, e.key, h) && Sendable(rt, e.val, h)
    ensures AllSendable(rt, Flatten(es), h)
  {
    if es != [] {
      assert es[0] in es;
      EntriesSendable(rt, es[1..], h);
      hide Sendable;
    }
  }

  lemma {:induction false} PresentSendable(rt: Runtime, fs: seq<Field>, h: nat)
    requires FieldsSendable(rt, fs, h)
    ensures forall e | e in Present(fs) :: Sendable(rt, e.key, h) && Sendable(rt, e.val, h)
  {
    if fs != [] {
      var front, last := fs[..|fs| - 1], fs[|fs| - 1];
      assert FieldsSendable(rt, front, h);
      PresentSendable(rt, front, h);
      KeySendable(rt, last.key, h);
      hide Sendable;
    }
  }

  /** A record's map is sendable, one level above its fields. */
  lemma RecordSendable(rt: Runtime, fs: seq<Field>, h: nat)
    requires FieldsSendable(rt, fs, h) && |fs| < TWO_64
    ensures Sendable(rt, Map(Present(fs)), h + 1)
  {
    PresentSendable(rt, fs, h);
    EntriesSendable(rt, Present(fs), h);
    ListSendable(rt, Flatten(Present(fs)), h);
    hide SizedAll, TextOkAll, HeightAll, Present, Flatten, Sendable;
    MapSendable(rt, Present(fs), h);
  }

  lemma MapSendable(rt: Runtime, es: seq<Entry>, h: nat)
    requires SizedAll(Flatten(es)) && TextOkAll(rt, Flatten(es)) && HeightAll(Flatten(es)) <= h && |es| < TWO_64
    ensures Sendable(rt, Map(es), h + 1)
  {
    assert Kids(Map(es)) == Flatten(es);
    hide SizedAll, TextOkAll, HeightAll, Flatten;
  }

  /** What a sendable value becomes on the other side. */
  lemma Delivered(rt: Runtime, v: Value, h: nat)
    requires Sendable(rt, v, h) && h <= DEPTH_LIMIT
    ensures Decode(rt, Enc(v)) == Ok(Norm(v))
  {
    hide Sized, TextOk, Height, Enc, Norm, Decode;
    Codec.RoundTrip(rt, v);
  }

  // Records whose fields are all leaves.

  /** A leaf that can be sent: texts must be valid. */
  predicate LeafOk(rt: Runtime, v: Value) {
    && IsLeaf(v)
    && (v.Text? ==> ValidText(rt, v.text))
    && (v.Bytes? ==> |v.data| < TWO_64)
  }

  lemma LeafSendable(rt: Runtime, v: Value)
    requires LeafOk(rt, v)
    ensures Sendable(rt, v, 0) && Norm(v) == NormLeaf(v)
  {
    assert Kids(v) == [] && SizedAll([]) && TextOkAll(rt, []) && NormAll([]) == [];
    assert FrameOf(v) == Leaf(v);
  }

  ghost predicate AsciiKeys(fs: seq<Field>) {
    forall i | 0 <= i < |fs| :: |fs[i].key| < TWO_64 && forall j | 0 <= j < |fs[i].key| :: fs[i].key[j] < 0x80
  }

  /** The record a sender wrote, seen from the receiver: every declared key holds its field's value. */
  ghost predicate Holds(root: Value, fs: seq<Field>) {
    forall i | 0 <= i < |fs| :: MapGet(root, fs[i].key) == NormOption(fs[i].value)
  }

  lemma Held(root: Value, fs: seq<Field>, i: nat)
    requires Holds(root, fs) && i < |fs|
    ensures MapGet(root, fs[i].key) == NormOption(fs[i].value)
  {
  }

  lemma RecordHolds(fs: seq<Field>)
    requires Increasing(fs)
    ensures Holds(Norm(Map(Present(fs))), fs)
  {
    hide Norm, Present, Increasing;
    forall i | 0 <= i < |fs|
      ensures MapGet(Norm(Map(Present(fs))), fs[i].key) == NormOption(fs[i].value)
    {
      MapGetNorm(Present(fs), fs[i].key);
      LookupFinds(fs, i);
    }
  }

  /** A record sent at height `h` of its fields arrives with every field. */
  lemma RecordDelivered(rt: Runtime, fs: seq<Field>, h: nat)
    requires Increasing(fs) && FieldsSendable(rt, fs, h) && |fs| < TWO_64 && h < DEPTH_LIMIT
    ensures Decode(rt, Enc(Map(Present(fs)))).Ok?
    ensures Holds(Decode(rt, Enc(Map(Present(fs)))).value, fs)
  {
    hide *;
    RecordSendable(rt, fs, h);
    Delivered(rt, Map(Present(fs)), h + 1);
    RecordHolds(fs);
  }

  ghost predicate LeafFields(rt: Runtime, fs: seq<Field>) {
    AsciiKeys(fs) && forall i | 0 <= i < |fs| && fs[i].value.Some? :: LeafOk(rt, fs[i].value.value)
  }

  lemma LeavesSendable(rt: Runtime, fs: seq<Field>)
    requires AcceptsAscii(rt) && LeafFields(rt, fs)
    ensures FieldsSendable(rt, fs, 0)
  {
    forall i | 0 <= i < |fs|
      ensures ValidText(rt, fs[i].key) && (fs[i].value.Some? ==> Sendable(rt, fs[i].value.value, 0))
    {
      if fs[i].value.Some? {
        LeafSendable(rt, fs[i].value.value);
      }
    }
  }

  lemma LeavesDelivered(rt: Runtime, fs: seq<Field>)
    requires AcceptsAscii(rt) && Increasing(fs) && LeafFields(rt, fs) && |fs| < TWO_64
    ensures Decode(rt, Enc(Map(Present(fs)))).Ok?
    ensures Holds(Decode(rt, Enc(Map(Present(fs)))).value, fs)
  {
    hide Increasing, LeafFields, FieldsSendable, Present, Enc, Decode, Holds;
    LeavesSendable(rt, fs);
    RecordDelivered(rt, fs, 0);
  }

  function UintField(key: string, v: Option<U64>): Field {
    Field(Ascii(key), if v.Some? then Some(Uint(v.value)) else None)
  }

  function IntField(key: string, v: Option<I64>): Field {
    Field(Ascii(key), if v.Some? then Some(Int(v.value)) else None)
  }

  function TextField(key: string, v: Option<seq<Byte>>): Field {
    Field(Ascii(key), if v.Some? then Some(Text(v.value)) else None)
  }

  function FloatField(key: string, v: Option<U64>): Field {
    Field(Ascii(key), if v.Some? then Some(Float(v.value)) else None)
  }

  function BytesField(key: string, v: seq<Byte>): Field {
    Field(Ascii(key), Some(Bytes(v)))
  }

  function BoolField(key: string, v: bool): Field {
    Field(Ascii(key), Some(Bool(v)))
  }

  // What a map must hold to be read as a record, whatever else it holds and in whatever order.

  /** The map holds this field, up to the form an integer takes on the wire; an absent field is not there. */
  ghost predicate Alike(root: Value, f: Field) {
    NormOption(MapGet(root, f.key)) == NormOption(f.value)
  }

  ghost predicate HoldsAlike(root: Value, fs: seq<Field>) {
    forall i | 0 <= i < |fs| :: Alike(root, fs[i])
  }

  /** A map that holds the fields as decoded holds them. */
  lemma HoldsMeansAlike(root: Value, fs: seq<Field>)
    requires Holds(root, fs)
    ensures HoldsAlike(root, fs)
  {
    hide MapGet, Norm;
    forall i | 0 <= i < |fs|
      ensures Alike(root, fs[i])
    {
      Held(root, fs, i);
      if fs[i].value.Some? {
        NormTwice(fs[i].value.value);
      }
    }
  }

  lemma NormOfLeaf(v: Value)
    ensures IsLeaf(Norm(v)) <==> IsLeaf(v)
    ensures IsLeaf(v) ==> Norm(v) == NormLeaf(v)
  {
    assert IsLeaf(v) ==> NormAll(Kids(v)) == [];
  }

  /** Each scalar reader takes exactly the forms of the value it returns. */
  lemma ReadersExact(v: Value, u: U64, i: I64, s: seq<Byte>, b: bool)
    ensures AsU64(v) == Ok(u) <==> Norm(v) == Norm(Uint(u))
    ensures AsI64(v) == Ok(i) <==> Norm(v) == Norm(Int(i))
    ensures AsText(v) == Ok(s) <==> Norm(v) == Norm(Text(s))
    ensures AsBytes(v) == Ok(s) <==> Norm(v) == Norm(Bytes(s))
    ensures AsBool(v) == Ok(b) <==> Norm(v) == Norm(Bool(b))
  {
    NormOfLeaf(v);
    NormOfLeaf(Uint(u));
    NormOfLeaf(Int(i));
    NormOfLeaf(Text(s));
    NormOfLeaf(Bytes(s));
    NormOfLeaf(Bool(b));
    hide Norm;
  }

  lemma UintAlike(root: Value, key: string, v: Option<U64>)
    ensures Alike(root, UintField(key, v)) <==> Optional(MapGet(root, Ascii(key)), AsU64) == Ok(v)
    ensures v.Some? ==>
      (Alike(root, UintField(key, v))
       <==> Require(root, Ascii(key)).Ok? && AsU64(Require(root, Ascii(key)).value) == Ok(v.value))
  {
    if v.Some? && MapGet(root, Ascii(key)).Some? {
      ReadersExact(MapGet(root, Ascii(key)).value, v.value, 0, [], false);
    }
    hide MapGet, Norm, Ascii, AsU64;
  }

  lemma IntAlike(root: Value, key: string, v: Option<I64>)
    ensures Alike(root, IntField(key, v)) <==> Optional(MapGet(root, Ascii(key)), AsI64) == Ok(v)
    ensures v.Some? ==>
      (Alike(root, IntField(key, v))
       <==> Require(root, Ascii(key)).Ok? && AsI64(Require(root, Ascii(key)).value) == Ok(v.value))
  {
    if v.Some? && MapGet(root, Ascii(key)).Some? {
      ReadersExact(MapGet(root, Ascii(key)).value, 0, v.value, [], false);
    }
    hide MapGet, Norm, Ascii, AsI64;
  }

  lemma TextAlike(root: Value, key: string, v: Option<seq<Byte>>)
    ensures Alike(root, TextField(key, v)) <==> Optional(MapGet(root, Ascii(key)), AsText) == Ok(v)
    ensures v.Some? ==>
      (Alike(root, TextField(key, v))
       <==> Require(root, Ascii(key)).Ok? && AsText(Require(root, Ascii(key)).value) == Ok(v.value))
  {
    if v.Some? && MapGet(root, Ascii(key)).Some? {
      ReadersExact(MapGet(root, Ascii(key)).value, 0, 0, v.value, false);
    }
    hide MapGet, Norm, Ascii, AsText;
  }

  lemma BytesAlike(root: Value, key: string, v: seq<Byte>)
    ensures Alike(root, BytesField(key, v))
        <==> Require(root, Ascii(key)).Ok? && AsBytes(Require(root, Ascii(key)).value) == Ok(v)
  {
    if MapGet(root, Ascii(key)).Some? {
      ReadersExact(MapGet(root, Ascii(key)).value, 0, 0, v, false);
    }
    hide MapGet, Norm, Ascii, AsBytes;
  }

  lemma BoolAlike(root: Value, key: string, v: bool)
    ensures Alike(root, BoolField(key, v))
        <==> Require(root, Ascii(key)).Ok? && AsBool(Require(root, Ascii(key)).value) == Ok(v)
  {
    if MapGet(root, Ascii(key)).Some? {
      ReadersExact(MapGet(root, Ascii(key)).value, 0, 0, [], v);
    }
    hide MapGet, Norm, Ascii, AsBool;
  }

  // What an accepted payload says about the texts and lengths in it.

  lemma {:induction false} MemberJudged(rt: Runtime, vs: seq<Value>, k: nat)
    requires k < |vs|
    ensures TextOkAll(rt, vs) ==> TextOk(rt, vs[k])
    ensures SizedAll(vs) ==> Sized(vs[k])
  {
    if k > 0 {
      hide TextOk, Sized;
      MemberJudged(rt, vs[1..], k - 1);
    }
  }

  /** Texts and lengths as a decoder lets them through. */
  ghost predicate Judged(rt: Runtime, v: Value) {
    TextOk(rt, v) && Sized(v)
  }

  lemma DecodedJudged(rt: Runtime, b: seq<Byte>)
    requires Decode(rt, b).Ok?
    ensures Judged(rt, Decode(rt, b).value)
  {
    hide Decode, TextOk, Sized;
    Codec.DecodeIsGrammar(rt, b, Decode(rt, b).value);
    Codec.Canonicalisation(rt, b, Decode(rt, b).value);
  }

  /** What a key holds is judged with the map. */
  lemma FoundJudged(rt: Runtime, root: Value, key: seq<Byte>)
    requires Judged(rt, root) && MapGet(root, key).Some?
    ensures Judged(rt, MapGet(root, key).value)
  {
    assert TextOkAll(rt, Flatten(root.entries)) && SizedAll(Flatten(root.entries)) by {
      assert Kids(root) == Flatten(root.entries);
      hide Flatten, TextOkAll, SizedAll;
    }
    GetIsMember(root.entries, key);
    hide TextOk, Sized, TextOkAll, SizedAll, Get;
    var i :| 0 <= i < |root.entries| && root.entries[i] == Entry(Text(key), Get(root.entries, key).value);
    FlattenAt(root.entries, i);
    MemberJudged(rt, Flatten(root.entries), 2 * i + 1);
  }

  /** And so is every item of an array. */
  lemma ItemJudged(rt: Runtime, v: Value, i: nat)
    requires Judged(rt, v) && v.Array? && i < |v.items|
    ensures Judged(rt, v.items[i]) && |v.items| < TWO_64
  {
    assert Kids(v) == v.items;
    assert TextOkAll(rt, v.items) && SizedAll(v.items);
    hide TextOkAll, SizedAll;
    MemberJudged(rt, v.items, i);
  }

  lemma TextFieldValid(rt: Runtime, root: Value, key: string, s: Option<seq<Byte>>)
    requires Judged(rt, root) && Alike(root, TextField(key, s))
    ensures s.Some? ==> ValidText(rt, s.value)
  {
    if s.Some? {
      TextAlike(root, key, s);
      hide MapGet, Alike, Ascii, TextField;
      FoundJudged(rt, root, Ascii(key));
    }
  }

  lemma BytesFieldValid(rt: Runtime, root: Value, key: string, s: seq<Byte>)
    requires Judged(rt, root) && Alike(root, BytesField(key, s))
    ensures |s| < TWO_64
  {
    BytesAlike(root, key, s);
    hide MapGet, Alike, Ascii, BytesField;
    FoundJudged(rt, root, Ascii(key));
  }
}
