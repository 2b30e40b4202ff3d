/** The two lookups against each other. Go walks the entries and takes the first match; TypeScript has
    already folded them into a Map, where a later value replaces an earlier one and a leading
    byte-order mark is gone from every text. */
module Lookups {
  import opened Machine
  import opened CborTree
  import opened Encoder
  import opened Parser
  import opened TsTree
  import opened Simulation
  import opened Fields
  import KeyOrder
  import Twins

  /** A key TypeScript reads as this one. */
  predicate ReadsAs(k: Value, key: seq<Byte>) {
    k.Text? && StripBom(k.text) == key
  }

  /** The last entry whose key TypeScript reads as this one. */
  function Last(es: seq<Entry>, key: seq<Byte>): Option<Value> {
    if es == [] then None
    else if Last(es[1..], key).Some? then Last(es[1..], key)
    else if ReadsAs(es[0].key, key) then Some(es[0].val)
    else None
  }

  /** The last value set under a string key. */
  function LastSet(kvs: seq<TsValue>, key: seq<Byte>): Option<TsValue>
    decreases |kvs|
  {
    if |kvs| < 2 then None
    else if LastSet(kvs[2..], key).Some? then LastSet(kvs[2..], key)
    else if kvs[0] == Str(key) then Some(kvs[1])
    else None
  }

  function ToTsOption(v: Option<Value>): Option<TsValue> {
    if v.Some? then Some(ToTs(v.value)) else None
  }

  lemma {:induction false} GetAfterSet(es: seq<TsEntry>, k: TsValue, v: TsValue, key: seq<Byte>)
    ensures DictGet(MapSet(es, k, v), key) == if k == Str(key) then Some(v) else DictGet(es, key)
  {
    if es != [] {
      GetAfterSet(es[1..], k, v, key);
      assert MapSet(es, k, v)[1..] == if SameKey(es[0].key, k) then es[1..] else MapSet(es[1..], k, v);
    }
  }

  lemma {:induction false} GetAfterSets(es: seq<TsEntry>, kvs: seq<TsValue>, key: seq<Byte>)
    ensures DictGet(SetAll(es, kvs), key)
         == if LastSet(kvs, key).Some? then LastSet(kvs, key) else DictGet(es, key)
    decreases |kvs|
  {
    if |kvs| >= 2 {
      hide MapSet, DictGet;
      GetAfterSet(es, kvs[0], kvs[1], key);
      GetAfterSets(MapSet(es, kvs[0], kvs[1]), kvs[2..], key);
    }
  }

  lemma KeyReadsAs(k: Value, key: seq<Byte>)
    ensures ToTs(k) == Str(key) <==> ReadsAs(k, key)
  {
    hide StripBom, SmallInt, NegativeInt, NearestNumber, SetAll;
    SmallIntIsNumber();
  }

  lemma SmallIntIsNumber()
    ensures forall n: U64 :: !SmallInt(n).Str? && !NegativeInt(n).Str?
  {
  }

  lemma {:induction false} LastOfFlatten(es: seq<Entry>, key: seq<Byte>)
    ensures LastSet(ToTsAll(Flatten(es)), key) == ToTsOption(Last(es, key))
  {
    if es != [] {
      hide ToTs, ReadsAs;
      KeyReadsAs(es[0].key, key);
      LastOfFlatten(es[1..], key);
      var vs, ts := Flatten(es), ToTsAll(Flatten(es));
      assert vs[1..][1..] == Flatten(es[1..]);
      assert ts[1..][1..] == ToTsAll(Flatten(es[1..]));
      assert ts[2..] == ts[1..][1..];
    }
  }

  /** Reading a Go map in TypeScript finds the last entry whose key reads as the wanted one. */
  lemma TypeScriptFindsLast(es: seq<Entry>, key: seq<Byte>)
    ensures TsMapGet(ToTs(Map(es)), key) == ToTsOption(Last(es, key))
  {
    ToTsShape(Map(es));
    assert Kids(Map(es)) == Flatten(es);
    hide ToTs, SetAll, DictGet, Last, ToTsAll, Flatten;
    GetAfterSets([], ToTsAll(Flatten(es)), key);
    LastOfFlatten(es, key);
    EmptyDict(key);
  }

  lemma EmptyDict(key: seq<Byte>)
    ensures DictGet([], key) == None
  {
  }

  /** No two keys read as the same declared key, and none only after losing a byte-order mark. */
  ghost predicate OneReading(es: seq<Entry>, key: seq<Byte>) {
    && (forall i, j | 0 <= i < j < |es| :: !(ReadsAs(es[i].key, key) && ReadsAs(es[j].key, key)))
    && (forall i | 0 <= i < |es| :: ReadsAs(es[i].key, key) <==> es[i].key == Text(key))
  }

  lemma {:induction false} LastAbsent(es: seq<Entry>, key: seq<Byte>)
    ensures Last(es, key).None? <==> forall i | 0 <= i < |es| :: !ReadsAs(es[i].key, key)
  {
    if es != [] {
      hide ReadsAs;
      LastAbsent(es[1..], key);
      assert forall i | 1 <= i < |es| :: es[i] == es[1..][i - 1];
      assert forall i | 0 <= i < |es[1..]| :: es[1..][i] == es[i + 1];
    }
  }

  /** The entry whose value is the one that stays. */
  ghost predicate LastReading(es: seq<Entry>, key: seq<Byte>, i: int) {
    && 0 <= i < |es| && ReadsAs(es[i].key, key)
    && forall j | i < j < |es| :: !ReadsAs(es[j].key, key)
  }

  lemma FindLast(es: seq<Entry>, key: seq<Byte>) returns (i: int)
    ensures Last(es, key).None? ==> forall j :: !LastReading(es, key, j)
    ensures Last(es, key).Some? ==> LastReading(es, key, i) && Last(es, key) == Some(es[i].val)
  {
    hide ReadsAs;
    LastAbsent(es, key);
    i := |es| - 1;
    while i >= 0 && !ReadsAs(es[i].key, key)
      invariant -1 <= i < |es|
      invariant forall j | i < j < |es| :: !ReadsAs(es[j].key, key)
    {
      i := i - 1;
    }
    if i >= 0 {
      LastAt(es, key, i);
    }
  }

  lemma {:induction false} LastAt(es: seq<Entry>, key: seq<Byte>, i: nat)
    requires LastReading(es, key, i)
    ensures Last(es, key) == Some(es[i].val)
  {
    hide ReadsAs;
    if i > 0 {
      assert LastReading(es[1..], key, i - 1);
      LastAt(es[1..], key, i - 1);
    } else {
      LastAbsent(es[1..], key);
    }
  }

  lemma FindFirst(es: seq<Entry>, key: seq<Byte>) returns (i: int)
    ensures Get(es, key).None? ==> forall j :: !FirstMatch(es, key, j)
    ensures Get(es, key).Some? ==> FirstMatch(es, key, i) && Get(es, key) == Some(es[i].val)
  {
    GetAbsent(es, key);
    i := 0;
    while i < |es| && es[i].key != Text(key)
      invariant 0 <= i <= |es|
      invariant forall j | 0 <= j < i :: es[j].key != Text(key)
    {
      i := i + 1;
    }
    if i < |es| {
      GetFirst(es, key, i);
    }
  }

  /** Both sides settle on the same entry, or on none. */
  ghost predicate SameEntry(es: seq<Entry>, key: seq<Byte>) {
    forall i :: FirstMatch(es, key, i) <==> LastReading(es, key, i)
  }

  ghost predicate Agree(es: seq<Entry>, key: seq<Byte>) {
    TsMapGet(ToTs(Map(es)), key) == ToTsOption(MapGet(Map(es), key))
  }

  lemma SameEntryAgrees(es: seq<Entry>, key: seq<Byte>)
    requires SameEntry(es, key)
    ensures Agree(es, key)
  {
    hide ToTs, FirstMatch, LastReading, Get, Last;
    TypeScriptFindsLast(es, key);
    var i := FindFirst(es, key);
    var j := FindLast(es, key);
    if Get(es, key).Some? {
      OneFirst(es, key, i, j);
    }
  }

  lemma OneFirst(es: seq<Entry>, key: seq<Byte>, i: int, j: int)
    ensures FirstMatch(es, key, i) && FirstMatch(es, key, j) ==> i == j
    ensures LastReading(es, key, i) && LastReading(es, key, j) ==> i == j
  {
    hide ReadsAs;
  }

  /** The same keys over other values. */
  function WithValues(es: seq<Entry>, vs: seq<Value>): (ds: seq<Entry>)
    requires |vs| == |es|
    ensures |ds| == |es| && forall i | 0 <= i < |es| :: ds[i] == Entry(es[i].key, vs[i])
  {
    seq(|es|, i requires 0 <= i < |es| && |vs| == |es| => Entry(es[i].key, vs[i]))
  }

  lemma SameKeys(es: seq<Entry>, vs: seq<Value>, key: seq<Byte>)
    requires |vs| == |es|
    ensures forall i :: FirstMatch(WithValues(es, vs), key, i) <==> FirstMatch(es, key, i)
    ensures forall i :: LastReading(WithValues(es, vs), key, i) <==> LastReading(es, key, i)
  {
    hide ReadsAs;
  }

  /** A different entry shows, once the values are told apart. */
  lemma OtherEntryShows(es: seq<Entry>, key: seq<Byte>, i: int) returns (vs: seq<Value>)
    requires FirstMatch(es, key, i) != LastReading(es, key, i)
    ensures |vs| == |es| && !Agree(WithValues(es, vs), key)
  {
    vs := seq(|es|, j => Bool(j == i));
    var ds := WithValues(es, vs);
    SameKeys(es, vs, key);
    BoolsApart();
    hide ToTs, FirstMatch, LastReading, Get, Last;
    TypeScriptFindsLast(ds, key);
    var f := FindFirst(ds, key);
    var l := FindLast(ds, key);
    InList(ds, key, f);
    InList(ds, key, l);
    InList(ds, key, i);
  }

  lemma InList(es: seq<Entry>, key: seq<Byte>, i: int)
    ensures FirstMatch(es, key, i) || LastReading(es, key, i) ==> 0 <= i < |es|
  {
  }

  lemma BoolsApart()
    ensures ToTs(Bool(true)) != ToTs(Bool(false))
  {
  }

  /** On a map's keys, the two lookups find the same value whatever the values are exactly when the first
      entry with the key is the last that reads as it. */
  lemma LookupsAgreeExactly(es: seq<Entry>, key: seq<Byte>)
    ensures SameEntry(es, key) <==> forall vs: seq<Value> | |vs| == |es| :: Agree(WithValues(es, vs), key)
  {
    hide Agree, FirstMatch, LastReading;
    if SameEntry(es, key) {
      forall vs: seq<Value> | |vs| == |es|
        ensures Agree(WithValues(es, vs), key)
      {
        SameKeys(es, vs, key);
        SameEntryAgrees(WithValues(es, vs), key);
      }
    } else {
      var i :| FirstMatch(es, key, i) != LastReading(es, key, i);
      var vs := OtherEntryShows(es, key, i);
    }
  }

  /** Where a key is read from one entry only, both sides find the same value. */
  lemma LookupsAgree(es: seq<Entry>, key: seq<Byte>)
    requires OneReading(es, key)
    ensures TsMapGet(ToTs(Map(es)), key) == ToTsOption(MapGet(Map(es), key))
  {
    OneReadingSame(es, key);
    hide ToTs, OneReading, SameEntry;
    SameEntryAgrees(es, key);
  }

  lemma OneReadingSame(es: seq<Entry>, key: seq<Byte>)
    requires OneReading(es, key)
    ensures SameEntry(es, key)
  {
    hide ReadsAs;
    forall i
      ensures FirstMatch(es, key, i) <==> LastReading(es, key, i)
    {
      if 0 <= i < |es| && es[i].key == Text(key) {
        assert ReadsAs(es[i].key, key);
      }
    }
  }

  /** A map that repeats a key over values TypeScript tells apart is read differently: Go takes the first
      value, TypeScript the last. */
  lemma RepeatedKeyDiffers(rt: Runtime, key: seq<Byte>, a: Value, b: Value, h: nat)
    requires ValidText(rt, key) && StripBom(key) == key && h < DEPTH_LIMIT
    requires Sendable(rt, a, h) && Sendable(rt, b, h) && ToTs(Norm(a)) != ToTs(Norm(b))
    ensures var bytes := Enc(Map([Entry(Text(key), a), Entry(Text(key), b)]));
            && Decode(rt, bytes).Ok? && MapGet(Decode(rt, bytes).value, key) == Some(Norm(a))
            && TsDecode(rt, bytes).Ok? && TsMapGet(TsDecode(rt, bytes).value, key) == Some(ToTs(Norm(b)))
            && TsMapGet(TsDecode(rt, bytes).value, key) != ToTsOption(MapGet(Decode(rt, bytes).value, key))
  {
    var es := [Entry(Text(key), a), Entry(Text(key), b)];
    hide Enc, Decode, TsDecode, ToTs, Norm, Sendable, ValidText;
    KeySendable(rt, key, h);
    EntriesSendable(rt, es, h);
    ListSendable(rt, Flatten(es), h);
    MapSendable(rt, es, h);
    Delivered(rt, Map(es), h + 1);
    Received(rt, Map(es), h + 1);
    MapGetNorm(es, key);
    TextsAsTheyAre(key);
    NormOfMap(es);
    TwoEntries(es[0], es[1], key);
    TypeScriptFindsLast(NormEntries(es), key);
  }

  lemma TextsAsTheyAre(key: seq<Byte>)
    ensures Norm(Text(key)) == Text(key)
  {
  }

  lemma TwoEntries(d: Entry, e: Entry, key: seq<Byte>)
    requires d.key == Text(key) && e.key == Text(key) && StripBom(key) == key && Norm(Text(key)) == Text(key)
    ensures Last(NormEntries([d, e]), key) == Some(Norm(e.val)) && Get([d, e], key) == Some(d.val)
  {
    hide Norm;
    assert NormEntries([d, e]) == [Entry(Norm(d.key), Norm(d.val))] + NormEntries([e]);
    assert [d, e][1..] == [e] && [e][1..] == [];
    assert NormEntries([e]) == [Entry(Norm(e.key), Norm(e.val))];
    assert NormEntries([d, e])[1..] == NormEntries([e]);
    assert NormEntries([e])[1..] == [];
    assert Last(NormEntries([e]), key) == Some(Norm(e.val));
  }

  // A record written by Go and opened by TypeScript.

  lemma Received(rt: Runtime, v: Value, h: nat)
    requires Sendable(rt, v, h) && h <= DEPTH_LIMIT
    ensures TsDecode(rt, Enc(v)) == Ok(ToTs(Norm(v)))
  {
    hide Sized, TextOk, Height, Enc, Norm, TsDecode, ToTs;
    Twins.TypeScriptReadsGo(rt, v);
  }

  lemma AsciiHasNoBom(key: seq<Byte>)
    requires forall j | 0 <= j < |key| :: key[j] < 0x80
    ensures StripBom(key) == key
  {
    if |key| >= 3 {
      assert key[..3][0] == key[0];
    }
  }

  /** Texts that are ASCII, in increasing order, read as themselves. */
  lemma CanonicalReading(es: seq<Entry>, key: seq<Byte>)
    requires CanonicalKeys(es) && forall e | e in es :: e.key.Text? && StripBom(e.key.text) == e.key.text
    ensures OneReading(NormEntries(es), key)
  {
    var ns := NormEntries(es);
    NormKeys(es);
    hide StripBom, Norm;
    forall i | 0 <= i < |ns|
      ensures ns[i].key == es[i].key && (ReadsAs(ns[i].key, key) <==> es[i].key == Text(key))
    {
      assert es[i] in es;
    }
    forall i, j | 0 <= i < j < |ns|
      ensures !(ReadsAs(ns[i].key, key) && ReadsAs(ns[j].key, key))
    {
      KeyOrder.LengthFirstIrreflexive(key);
    }
  }

  lemma {:induction false} NormKeys(es: seq<Entry>)
    requires forall e | e in es :: e.key.Text?
    ensures forall i | 0 <= i < |es| :: NormEntries(es)[i].key == es[i].key
  {
    if es != [] {
      assert es[0] in es;
      TextsAsTheyAre(es[0].key.text);
      hide Norm;
      assert forall e | e in es[1..] :: e in es;
      NormKeys(es[1..]);
      forall i | 0 <= i < |es|
        ensures NormEntries(es)[i].key == es[i].key
      {
        if i > 0 {
          assert NormEntries(es)[i] == NormEntries(es[1..])[i - 1];
        }
      }
    }
  }

  /** The record a Go sender wrote, seen from TypeScript: every declared key holds its field's value. */
  ghost predicate HoldsTs(root: TsValue, fs: seq<Field>) {
    forall i | 0 <= i < |fs| :: TsMapGet(root, fs[i].key) == ToTsOption(NormOption(fs[i].value))
  }

  lemma HeldTs(root: TsValue, fs: seq<Field>, i: nat)
    requires HoldsTs(root, fs) && i < |fs|
    ensures TsMapGet(root, fs[i].key) == ToTsOption(NormOption(fs[i].value))
  {
  }

  lemma AsciiTexts(fs: seq<Field>)
    requires AsciiKeys(fs)
    ensures forall e | e in Present(fs) :: e.key.Text? && StripBom(e.key.text) == e.key.text
  {
    PresentKeys(fs);
    forall e | e in Present(fs)
      ensures e.key.Text? && StripBom(e.key.text) == e.key.text
    {
      var i :| 0 <= i < |fs| && e.key == Text(fs[i].key);
      AsciiHasNoBom(fs[i].key);
    }
  }

  lemma RecordHeld(fs: seq<Field>)
    requires Increasing(fs) && AsciiKeys(fs)
    ensures HoldsTs(ToTs(Norm(Map(Present(fs)))), fs)
  {
    hide Norm, ToTs, Present, Increasing, AsciiKeys, OneReading, StripBom, CanonicalKeys, NormOption, ToTsOption,
      TsMapGet;
    var es := Present(fs);
    EmittedKeysIncrease(fs);
    AsciiTexts(fs);
    NormOfMap(es);
    forall i | 0 <= i < |fs|
      ensures TsMapGet(ToTs(Norm(Map(es))), fs[i].key) == ToTsOption(NormOption(fs[i].value))
    {
      CanonicalReading(es, fs[i].key);
      LookupsAgree(NormEntries(es), fs[i].key);
      MapGetNorm(es, fs[i].key);
      LookupFinds(fs, i);
    }
  }

  /** TypeScript accepts every record Go writes and finds each field under its own key. */
  lemma WrittenByGo(rt: Runtime, fs: seq<Field>)
    requires AcceptsAscii(rt) && Increasing(fs) && LeafFields(rt, fs) && |fs| < TWO_64
    ensures TsDecode(rt, Enc(Map(Present(fs)))).Ok?
    ensures HoldsTs(TsDecode(rt, Enc(Map(Present(fs)))).value, fs)
  {
    LeavesSendable(rt, fs);
    hide *;
    RecordSendable(rt, fs, 0);
    KeysAreAscii(rt, fs);
    Received(rt, Map(Present(fs)), 1);
    RecordHeld(fs);
  }

  lemma KeysAreAscii(rt: Runtime, fs: seq<Field>)
    requires LeafFields(rt, fs)
    ensures AsciiKeys(fs)
  {
  }
}
