/** Records written by Go and read by TypeScript, and the same record sent there and back. */
module TsReaders {
  import opened Machine
  import opened CborTree
  import opened Encoder
  import opened Float64
  import opened TsTree
  import opened Simulation
  import opened Fields
  import opened Lookups
  import Records
  import TsRecords
  import Transport
  import Twins

  function RequireKey(t: TsValue, key: seq<Byte>): Result<TsValue> {
    match TsMapGet(t, key)
    case Some(x) => Ok(x)
    case None => Err(MissingField)
  }

  function AsNumber(t: TsValue): Result<U64> {
    match t
    case Number(bits) => Ok(bits)
    case BigInt(n) => Ok(OfInt(n))
    case _ => Err(WrongType)
  }

  function AsString(t: TsValue): Result<seq<Byte>> {
    if t.Str? then Ok(t.text) else Err(WrongType)
  }

  function AsEnumMember(t: TsValue, members: set<seq<Byte>>): Result<seq<Byte>> {
    var s :- AsString(t);
    if s in members then Ok(s) else Err(NotInEnum)
  }

  function Undefinable<T>(v: Option<TsValue>, read: TsValue -> Result<T>): Result<Option<T>> {
    match v
    case None => Ok(None)
    case Some(x) => var t :- read(x); Ok(Some(t))
  }

  /** What each of Go's leaves is to a TypeScript reader. */
  lemma LeavesRead(u: U64, i: I64, bits: U64, s: seq<Byte>)
    ensures AsNumber(ToTs(Norm(Uint(u)))) == Ok(OfNat(u))
    ensures AsNumber(ToTs(Norm(Int(i)))) == Ok(OfInt(i))
    ensures AsNumber(ToTs(Norm(Float(bits)))) == Ok(bits)
    ensures ToTs(Norm(Text(s))) == Str(StripBom(s))
  {
    hide OfNat;
    LeafToTs(Uint(u));
    LeafToTs(Int(i));
    LeafToTs(Float(bits));
    LeafToTs(Text(s));
  }

  lemma LeafToTs(v: Value)
    requires IsLeaf(v)
    ensures ToTs(Norm(v)) == ToTsLeaf(NormLeaf(v))
  {
    hide ToTsLeaf;
    assert NormAll([]) == [] && ToTsAll([]) == [];
    assert FrameOf(v) == Leaf(v) && Kids(v) == [];
  }

  /** A field that reads as a number, and one that reads as a string. */
  lemma UintHeld(root: TsValue, fs: seq<Field>, i: nat, key: string, u: Option<U64>)
    requires HoldsTs(root, fs) && i < |fs| && fs[i] == UintField(key, u)
    ensures u.Some?
        ==> RequireKey(root, Ascii(key)).Ok? && AsNumber(RequireKey(root, Ascii(key)).value) == Ok(OfNat(u.value))
    ensures Undefinable(TsMapGet(root, Ascii(key)), AsNumber) == Ok(if u.Some? then Some(OfNat(u.value)) else None)
  {
    hide Norm, ToTs, Ascii, OfNat, TsMapGet, HoldsTs, AsNumber;
    HeldTs(root, fs, i);
    if u.Some? {
      LeavesRead(u.value, 0, 0, []);
    }
  }

  lemma IntHeld(root: TsValue, fs: seq<Field>, i: nat, key: string, n: Option<I64>)
    requires HoldsTs(root, fs) && i < |fs| && fs[i] == IntField(key, n)
    ensures Undefinable(TsMapGet(root, Ascii(key)), AsNumber) == Ok(if n.Some? then Some(OfInt(n.value)) else None)
  {
    hide Norm, ToTs, Ascii, OfNat, TsMapGet, HoldsTs, AsNumber;
    HeldTs(root, fs, i);
    if n.Some? {
      LeavesRead(0, n.value, 0, []);
    }
  }

  lemma FloatHeld(root: TsValue, fs: seq<Field>, i: nat, key: string, bits: Option<U64>)
    requires HoldsTs(root, fs) && i < |fs| && fs[i] == FloatField(key, bits)
    ensures Undefinable(TsMapGet(root, Ascii(key)), AsNumber) == Ok(bits)
  {
    hide Norm, ToTs, Ascii, OfNat, TsMapGet, HoldsTs, AsNumber;
    HeldTs(root, fs, i);
    if bits.Some? {
      LeavesRead(0, 0, bits.value, []);
    }
  }

  lemma StringHeld(root: TsValue, fs: seq<Field>, i: nat, key: string, s: Option<seq<Byte>>)
    requires HoldsTs(root, fs) && i < |fs| && fs[i] == TextField(key, s)
    ensures TsMapGet(root, Ascii(key)) == if s.Some? then Some(Str(StripBom(s.value))) else None
  {
    hide Norm, ToTs, Ascii, OfNat, TsMapGet, HoldsTs, StripBom;
    HeldTs(root, fs, i);
    if s.Some? {
      LeavesRead(0, 0, 0, s.value);
    }
  }

  // RecurrenceRule.

  function FromRecurrenceRule(root: TsValue): Result<TsRecords.TsRule> {
    var freqValue :- RequireKey(root, Ascii("freq"));
    var freq :- AsEnumMember(freqValue, Records.Frequencies());
    var intervalValue :- RequireKey(root, Ascii("interval"));
    var interval :- AsNumber(intervalValue);
    var weekday :- Undefinable(TsMapGet(root, Ascii("weekday")), (x: TsValue) => AsEnumMember(x, Records.Weekdays()));
    var ordinal :- Undefinable(TsMapGet(root, Ascii("ordinal")), AsNumber);
    var dayOfMonth :- Undefinable(TsMapGet(root, Ascii("day_of_month")), AsNumber);
    Ok(TsRecords.TsRule(freq, interval, weekday, ordinal, dayOfMonth))
  }

  function FromRecurrenceRuleCbor(rt: Runtime, b: seq<Byte>): Result<TsRecords.TsRule> {
    var root :- TsDecode(rt, b);
    FromRecurrenceRule(root)
  }

  function StripOption(s: Option<seq<Byte>>): Option<seq<Byte>> {
    if s.Some? then Some(StripBom(s.value)) else None
  }

  /** The TypeScript rule with the same contents: every count to the nearest number. */
  function TsRuleOf(r: Records.RecurrenceRule): TsRecords.TsRule {
    TsRecords.TsRule(
      StripBom(r.freq),
      OfNat(r.interval),
      StripOption(r.weekday),
      if r.ordinal.Some? then Some(OfInt(r.ordinal.value)) else None,
      if r.dayOfMonth.Some? then Some(OfNat(r.dayOfMonth.value)) else None)
  }

  lemma RuleRead(r: Records.RecurrenceRule, root: TsValue)
    requires HoldsTs(root, Records.RecurrenceRuleFields(r))
    ensures FromRecurrenceRule(root)
        == if TsRecords.TsRuleDeclared(TsRuleOf(r)) then Ok(TsRuleOf(r)) else Err(NotInEnum)
  {
    var fs := Records.RecurrenceRuleFields(r);
    hide Ascii, TsMapGet, HoldsTs, StripBom, OfNat, OfInt, AsNumber, Records.Frequencies, Records.Weekdays, TextField,
      UintField, IntField;
    StringHeld(root, fs, 0, "freq", Some(r.freq));
    IntHeld(root, fs, 1, "ordinal", r.ordinal);
    StringHeld(root, fs, 2, "weekday", r.weekday);
    UintHeld(root, fs, 3, "interval", Some(r.interval));
    UintHeld(root, fs, 4, "day_of_month", r.dayOfMonth);
  }

  /** A rule written by Go, as TypeScript reads it: refused exactly when a word is not declared once a
      byte-order mark is dropped. */
  lemma RuleReceived(rt: Runtime, r: Records.RecurrenceRule)
    requires AcceptsAscii(rt) && Records.RecurrenceRuleValid(rt, r)
    ensures FromRecurrenceRuleCbor(rt, Records.EncodeRecurrenceRule(r))
         == if TsRecords.TsRuleDeclared(TsRuleOf(r)) then Ok(TsRuleOf(r)) else Err(NotInEnum)
  {
    hide TsDecode, Enc, Present, HoldsTs, LeafFields, Increasing, FromRecurrenceRule, TsRuleOf, AcceptsAscii,
      TsRecords.TsRuleDeclared;
    Records.RecurrenceRuleLeaves(rt, r);
    WrittenByGo(rt, Records.RecurrenceRuleFields(r));
    RuleRead(r, TsDecode(rt, Records.EncodeRecurrenceRule(r)).value);
  }

  // Location.

  function FromLocation(root: TsValue): Result<Records.Location> {
    var nameValue :- RequireKey(root, Ascii("name"));
    var name :- AsString(nameValue);
    var addressValue :- RequireKey(root, Ascii("address"));
    var address :- AsString(addressValue);
    var localityValue :- RequireKey(root, Ascii("locality"));
    var locality :- AsString(localityValue);
    var regionValue :- RequireKey(root, Ascii("region"));
    var region :- AsString(regionValue);
    var postalCodeValue :- RequireKey(root, Ascii("postal_code"));
    var postalCode :- AsString(postalCodeValue);
    var countryValue :- RequireKey(root, Ascii("country"));
    var country :- AsString(countryValue);
    var latitude :- Undefinable(TsMapGet(root, Ascii("latitude")), AsNumber);
    var longitude :- Undefinable(TsMapGet(root, Ascii("longitude")), AsNumber);
    Ok(Records.Location(name, address, locality, region, postalCode, country, latitude, longitude))
  }

  function FromLocationCbor(rt: Runtime, b: seq<Byte>): Result<Records.Location> {
    var root :- TsDecode(rt, b);
    FromLocation(root)
  }

  predicate StartsWithBom(s: seq<Byte>) {
    |s| >= 3 && s[0] == 0xef && s[1] == 0xbb && s[2] == 0xbf
  }

  lemma StripChanges(s: seq<Byte>)
    ensures StripBom(s) == s <==> !StartsWithBom(s)
  {
    if |s| >= 3 {
      assert s[..3] == [s[0], s[1], s[2]];
    }
  }

  function Stripped(l: Records.Location): Records.Location {
    Records.Location(
      StripBom(l.name), StripBom(l.address), StripBom(l.locality), StripBom(l.region), StripBom(l.postalCode),
      StripBom(l.country), l.latitude, l.longitude)
  }

  predicate AnyBom(l: Records.Location) {
    || StartsWithBom(l.name) || StartsWithBom(l.address) || StartsWithBom(l.locality)
    || StartsWithBom(l.region) || StartsWithBom(l.postalCode) || StartsWithBom(l.country)
  }

  lemma StringRequired(root: TsValue, fs: seq<Field>, i: nat, key: string, s: seq<Byte>)
    requires HoldsTs(root, fs) && i < |fs| && fs[i] == TextField(key, Some(s))
    ensures RequireKey(root, Ascii(key)) == Ok(Str(StripBom(s)))
  {
    hide Ascii, TsMapGet, HoldsTs, StripBom, TextField;
    StringHeld(root, fs, i, key, Some(s));
  }

  lemma LocationReadTs(l: Records.Location, root: TsValue)
    requires HoldsTs(root, Records.LocationFields(l))
    ensures FromLocation(root) == Ok(Stripped(l))
  {
    var fs := Records.LocationFields(l);
    hide Ascii, TsMapGet, HoldsTs, StripBom, AsNumber, RequireKey, Undefinable, TextField, FloatField;
    StringRequired(root, fs, 0, "name", l.name);
    StringRequired(root, fs, 1, "region", l.region);
    StringRequired(root, fs, 2, "address", l.address);
    StringRequired(root, fs, 3, "country", l.country);
    FloatHeld(root, fs, 4, "latitude", l.latitude);
    StringRequired(root, fs, 5, "locality", l.locality);
    FloatHeld(root, fs, 6, "longitude", l.longitude);
    StringRequired(root, fs, 7, "postal_code", l.postalCode);
  }

  /** A location written by Go is read by TypeScript, and as the same location exactly when no text starts
      with a byte-order mark; every coordinate survives, negative zero included. */
  lemma LocationReceived(rt: Runtime, l: Records.Location)
    requires AcceptsAscii(rt) && Records.LocationValid(rt, l)
    ensures var r := FromLocationCbor(rt, Records.EncodeLocation(l));
            && r.Ok? && r.value.latitude == l.latitude && r.value.longitude == l.longitude
            && (r.value == l <==> !AnyBom(l))
  {
    SameUnlessBom(l);
    hide TsDecode, Enc, Present, HoldsTs, LeafFields, Increasing, FromLocation, AcceptsAscii, Records.LocationFields,
      Records.LocationValid, AnyBom, StripBom;
    Records.LocationLeaves(rt, l);
    WrittenByGo(rt, Records.LocationFields(l));
    LocationReadTs(l, TsDecode(rt, Records.EncodeLocation(l)).value);
  }

  lemma SameUnlessBom(l: Records.Location)
    ensures Stripped(l) == l <==> !AnyBom(l)
  {
    hide StripBom, StartsWithBom;
    StripChanges(l.name);
    StripChanges(l.address);
    StripChanges(l.locality);
    StripChanges(l.region);
    StripChanges(l.postalCode);
    StripChanges(l.country);
  }

  // There and back.

  lemma CutBack(rt: Runtime, bits: U64)
    requires IsInteger(bits) && Twins.IntReadable(IntOf(bits))
    ensures OfInt(TsRecords.Cut(IntOf(bits))) == bits <==> bits != NEG_ZERO && Twins.IntInRange(IntOf(bits))
  {
    Transport.IntegersSurvive(rt, bits);
    Transport.IntegerReads(rt, bits);
    hide Transport.GoFloat, IsInteger, IntOf, OfNat;
  }

  lemma WordsHaveNoBom(s: seq<Byte>)
    requires s in Records.Frequencies() || s in Records.Weekdays()
    ensures StripBom(s) == s
  {
    hide StripBom;
    AsciiHasNoBom(s);
  }

  predicate NoNegativeZero(t: TsRecords.TsRule) {
    t.interval != NEG_ZERO && t.ordinal != Some(NEG_ZERO) && t.dayOfMonth != Some(NEG_ZERO)
  }

  /** A number taken as a count, or as a signed integer, and sent back. */
  lemma CountBack(rt: Runtime, bits: U64)
    requires TsRecords.TakenAsCount(bits)
    ensures OfNat(WireArg(IntOf(bits))) == bits <==> bits != NEG_ZERO && TsRecords.IsCount(bits)
  {
    CutBack(rt, bits);
    hide IsInteger, IntOf, OfNat;
  }

  lemma I64Back(rt: Runtime, bits: U64)
    requires TsRecords.TakenAsI64(bits)
    ensures OfInt(TsRecords.TakenI64(bits)) == bits <==> bits != NEG_ZERO && TsRecords.IsI64(bits)
  {
    CutBack(rt, bits);
    hide IsInteger, IntOf, OfInt;
    I64Range(IntOf(bits));
    hide WireArg, Twins.IntInRange, TsRecords.Cut;
  }

  lemma I64Range(n: int)
    ensures WireArg(n) <= MAX_I64 ==>
      (Twins.IntInRange(n) <==> -0x8000_0000_0000_0000 <= n <= MAX_I64) && Twins.IntReadable(n)
  {
  }

  lemma RuleUnchanged(rt: Runtime, t: TsRecords.TsRule)
    requires TsRecords.TsRuleValid(rt, t) && TsRecords.RuleTaken(t)
    ensures var u := TsRuleOf(TsRecords.GoRule(t));
            TsRecords.TsRuleDeclared(u) && (u == t <==> NoNegativeZero(t) && TsRecords.RuleTyped(t))
    ensures Records.RecurrenceRuleValid(rt, TsRecords.GoRule(t))
  {
    WordsHaveNoBom(t.freq);
    CountBack(rt, t.interval);
    if t.weekday.Some? {
      WordsHaveNoBom(t.weekday.value);
    }
    if t.ordinal.Some? {
      I64Back(rt, t.ordinal.value);
    }
    if t.dayOfMonth.Some? {
      CountBack(rt, t.dayOfMonth.value);
    }
    hide StripBom, IsInteger, IntOf, OfNat, OfInt, WireArg, Records.Frequencies, Records.Weekdays, TsRecords.IsCount,
      TsRecords.IsI64, TsRecords.TakenAsCount, TsRecords.TakenAsI64, TsRecords.TakenI64, ValidText;
  }

  /** Any rule TypeScript can write, sent to Go and back: what Go takes is accepted on the way back, and the
      same rule returns exactly when its words are declared, its numbers are of their types and none of them
      is negative zero. */
  lemma RuleThereAndBack(rt: Runtime, t: TsRecords.TsRule)
    requires AcceptsAscii(rt) && TsRecords.TsRuleValid(rt, t)
    ensures var there := Records.DecodeRecurrenceRule(rt, TsRecords.RuleBytes(t));
            && (there.Ok? ==> FromRecurrenceRuleCbor(rt, Records.EncodeRecurrenceRule(there.value)).Ok?)
            && (there.Ok? && FromRecurrenceRuleCbor(rt, Records.EncodeRecurrenceRule(there.value)) == Ok(t)
                <==> TsRecords.TsRuleDeclared(t) && TsRecords.RuleTyped(t) && NoNegativeZero(t))
  {
    TypedTaken(t);
    hide *;
    TsRecords.RuleTransport(rt, t);
    if TsRecords.RuleTaken(t) {
      RuleUnchanged(rt, t);
      RuleReceived(rt, TsRecords.GoRule(t));
    }
  }

  lemma TypedTaken(t: TsRecords.TsRule)
    ensures TsRecords.TsRuleDeclared(t) && TsRecords.RuleTyped(t) ==> TsRecords.RuleTaken(t)
    ensures TsRecords.RuleTaken(t) ==> TsRecords.TsRuleDeclared(t)
  {
    hide IsInteger, IntOf, Records.Frequencies, Records.Weekdays;
  }
}
