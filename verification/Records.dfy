/** The generated encoders and decoders of flat records: entries are laid down in canonical key order
    and read back in the order the schema declares. */
module Records {
  import opened Machine
  import opened CborTree
  import opened Encoder
  import opened Parser
  import opened KeyOrder
  import opened Fields
  import opened Float64

  /** Names of different lengths, or of one length and first differing at `k`. */
  lemma NameOrder(s: string, t: string, k: nat)
    requires |s| < |t| || (|s| == |t| && k < |s| && s[..k] == t[..k] && s[k] < t[k] < '\U{80}')
    ensures LengthFirst(Ascii(s), Ascii(t))
  {
    if |s| == |t| {
      NamesDiffer(s, t, k);
    }
  }

  lemma NormPlain()
    ensures forall u: U64 :: Norm(Uint(u)) == Uint(u)
    ensures forall s: seq<Byte> :: Norm(Text(s)) == Text(s)
    ensures forall s: seq<Byte> :: Norm(Bytes(s)) == Bytes(s)
    ensures forall b: bool :: Norm(Bool(b)) == Bool(b)
    ensures forall b: U64 :: Norm(Float(b)) == Float(b)
    ensures forall i: I64 :: Norm(Int(i)) == if i >= 0 then Uint(i) else Int(i)
  {
  }

  function Frequencies(): set<seq<Byte>> {
    {Ascii("weekly"), Ascii("monthly"), Ascii("quarterly"), Ascii("yearly")}
  }

  function Weekdays(): set<seq<Byte>> {
    {Ascii("monday"), Ascii("tuesday"), Ascii("wednesday"), Ascii("thursday"), Ascii("friday"), Ascii("saturday"),
     Ascii("sunday")}
  }

  // Page.

  datatype Page = Page(
    limit: Option<U64>,
    offset: Option<U64>)

  function PageFields(p: Page): (fs: seq<Field>)
    ensures |fs| == 2
  {
    [
      UintField("limit", p.limit),
      UintField("offset", p.offset)
    ]
  }

  function PageKeys(): set<seq<Byte>> {
    {Ascii("limit"), Ascii("offset")}
  }

  function EncodePage(p: Page): seq<Byte> {
    Enc(Map(Present(PageFields(p))))
  }

  function PageOf(root: Value): Result<Page> {
    var limit :- Optional(MapGet(root, Ascii("limit")), AsU64);
    var offset :- Optional(MapGet(root, Ascii("offset")), AsU64);
    Ok(Page(limit, offset))
  }

  function DecodePage(rt: Runtime, b: seq<Byte>): Result<Page> {
    var root :- Decode(rt, b);
    PageOf(root)
  }

  method CsilEncPage(p: Page) returns (tree: Value)
    ensures tree == Map(Present(PageFields(p)))
  {
    hide Present, Ascii;
    ghost var fs := PageFields(p);
    var entries := [];
    PresentStep(fs, 0);
    if p.limit.Some? {
      entries := entries + [Entry(Text(Ascii("limit")), Uint(p.limit.value))];
    }
    PresentStep(fs, 1);
    if p.offset.Some? {
      entries := entries + [Entry(Text(Ascii("offset")), Uint(p.offset.value))];
    }
    tree := Map(entries);
  }

  /** Whatever is present, the keys written are distinct and in both canonical orders. */
  lemma PageKeysIncrease(p: Page)
    ensures Increasing(PageFields(p)) && AsciiKeys(PageFields(p))
    ensures CanonicalKeys(Present(PageFields(p)))
  {
    var fs := PageFields(p);
    NameOrder("limit", "offset", 0);
    hide LengthFirst, Present, CanonicalKeys;
    NeighboursSuffice(fs);
    EmittedKeysIncrease(fs);
  }

  lemma PageLeaves(rt: Runtime, p: Page)
    ensures Increasing(PageFields(p)) && LeafFields(rt, PageFields(p))
  {
    PageKeysIncrease(p);
    hide Increasing, AsciiKeys, CanonicalKeys, Present, Ascii, ValidText;
  }

  /** Read back in schema order from any map that holds the fields under their keys. */
  lemma PageRead(p: Page, root: Value)
    requires Holds(root, PageFields(p))
    ensures PageOf(root) == Ok(p)
  {
    hide Holds, HoldsAlike, PageOf, PageFields;
    HoldsMeansAlike(root, PageFields(p));
    PageExact(p, root);
  }

  /** The maps read as this record: those that hold its fields, in any order and among any others. */
  lemma PageExact(p: Page, root: Value)
    ensures PageOf(root) == Ok(p) <==> HoldsAlike(root, PageFields(p))
  {
    var fs := PageFields(p);
    UintAlike(root, "limit", p.limit);
    UintAlike(root, "offset", p.offset);
    hide Alike, MapGet, Require, Optional, Ascii, AsU64, UintField;
    if HoldsAlike(root, fs) {
      assert Alike(root, fs[0]) && Alike(root, fs[1]);
    }
    if Alike(root, fs[0]) && Alike(root, fs[1]) {
      forall i | 0 <= i < 2
        ensures Alike(root, fs[i])
      {
        assert i == 0 || i == 1;
      }
    }
  }

  lemma PageRoundTrip(rt: Runtime, p: Page)
    requires AcceptsAscii(rt)
    ensures DecodePage(rt, EncodePage(p)) == Ok(p)
  {
    hide Enc, Decode, Present, Increasing, LeafFields, Holds, PageOf;
    PageLeaves(rt, p);
    LeavesDelivered(rt, PageFields(p));
    PageRead(p, Decode(rt, EncodePage(p)).value);
  }

  lemma PageIgnoresUndeclared(es: seq<Entry>, fs: seq<Entry>)
    requires SameDeclared(es, fs, PageKeys()) && DistinctDeclared(es, PageKeys())
    ensures PageOf(Map(fs)) == PageOf(Map(es))
  {
    hide SameDeclared, DistinctDeclared, Get, Ascii;
    DeclaredLookup(es, fs, PageKeys(), Ascii("limit"));
    DeclaredLookup(es, fs, PageKeys(), Ascii("offset"));
  }

  // ServiceError.

  datatype ServiceError = ServiceError(
    code: U64,
    message: seq<Byte>,
    field: Option<seq<Byte>>,
    resourceType: Option<seq<Byte>>)

  function ServiceErrorFields(e: ServiceError): (fs: seq<Field>)
    ensures |fs| == 4
  {
    [
      UintField("code", Some(e.code)),
      TextField("field", e.field),
      TextField("message", Some(e.message)),
      TextField("resource_type", e.resourceType)
    ]
  }

  function ServiceErrorKeys(): set<seq<Byte>> {
    {Ascii("code"), Ascii("field"), Ascii("message"), Ascii("resource_type")}
  }

  function EncodeServiceError(e: ServiceError): seq<Byte> {
    Enc(Map(Present(ServiceErrorFields(e))))
  }

  function ServiceErrorOf(root: Value): Result<ServiceError> {
    var codeField :- Require(root, Ascii("code"));
    var code :- AsU64(codeField);
    var messageField :- Require(root, Ascii("message"));
    var message :- AsText(messageField);
    var field :- Optional(MapGet(root, Ascii("field")), AsText);
    var resourceType :- Optional(MapGet(root, Ascii("resource_type")), AsText);
    Ok(ServiceError(code, message, field, resourceType))
  }

  function DecodeServiceError(rt: Runtime, b: seq<Byte>): Result<ServiceError> {
    var root :- Decode(rt, b);
    ServiceErrorOf(root)
  }

  method CsilEncServiceError(e: ServiceError) returns (tree: Value)
    ensures tree == Map(Present(ServiceErrorFields(e)))
  {
    hide Present, Ascii;
    ghost var fs := ServiceErrorFields(e);
    var entries := [];
    PresentStep(fs, 0);
    entries := entries + [Entry(Text(Ascii("code")), Uint(e.code))];
    PresentStep(fs, 1);
    if e.field.Some? {
      entries := entries + [Entry(Text(Ascii("field")), Text(e.field.value))];
    }
    PresentStep(fs, 2);
    entries := entries + [Entry(Text(Ascii("message")), Text(e.message))];
    PresentStep(fs, 3);
    if e.resourceType.Some? {
      entries := entries + [Entry(Text(Ascii("resource_type")), Text(e.resourceType.value))];
    }
    tree := Map(entries);
  }

  /** Whatever is present, the keys written are distinct and in both canonical orders. */
  lemma ServiceErrorKeysIncrease(e: ServiceError)
    ensures Increasing(ServiceErrorFields(e)) && AsciiKeys(ServiceErrorFields(e))
    ensures CanonicalKeys(Present(ServiceErrorFields(e)))
  {
    var fs := ServiceErrorFields(e);
    NameOrder("code", "field", 0);
    NameOrder("field", "message", 0);
    NameOrder("message", "resource_type", 0);
    hide LengthFirst, Present, CanonicalKeys;
    NeighboursSuffice(fs);
    EmittedKeysIncrease(fs);
  }

  predicate ServiceErrorValid(rt: Runtime, e: ServiceError) {
    && ValidText(rt, e.message)
    && (e.field.Some? ==> ValidText(rt, e.field.value))
    && (e.resourceType.Some? ==> ValidText(rt, e.resourceType.value))
  }

  lemma ServiceErrorLeaves(rt: Runtime, e: ServiceError)
    requires ServiceErrorValid(rt, e)
    ensures Increasing(ServiceErrorFields(e)) && LeafFields(rt, ServiceErrorFields(e))
  {
    ServiceErrorKeysIncrease(e);
    hide Increasing, AsciiKeys, CanonicalKeys, Present, Ascii, ValidText;
  }

  /** Read back in schema order from any map that holds the fields under their keys. */
  lemma ServiceErrorRead(e: ServiceError, root: Value)
    requires Holds(root, ServiceErrorFields(e))
    ensures ServiceErrorOf(root) == Ok(e)
  {
    hide Holds, HoldsAlike, ServiceErrorOf, ServiceErrorFields;
    HoldsMeansAlike(root, ServiceErrorFields(e));
    ServiceErrorExact(e, root);
  }

  /** The maps read as this record: those that hold its fields, in any order and among any others. */
  lemma ServiceErrorExact(e: ServiceError, root: Value)
    ensures ServiceErrorOf(root) == Ok(e) <==> HoldsAlike(root, ServiceErrorFields(e))
  {
    var fs := ServiceErrorFields(e);
    UintAlike(root, "code", Some(e.code));
    TextAlike(root, "field", e.field);
    TextAlike(root, "message", Some(e.message));
    TextAlike(root, "resource_type", e.resourceType);
    hide Alike, MapGet, Require, Optional, Ascii, AsText, AsU64, TextField, UintField;
    if HoldsAlike(root, fs) {
      assert Alike(root, fs[0]) && Alike(root, fs[1]) && Alike(root, fs[2]) && Alike(root, fs[3]);
    }
    if Alike(root, fs[0]) && Alike(root, fs[1]) && Alike(root, fs[2]) && Alike(root, fs[3]) {
      forall i | 0 <= i < 4
        ensures Alike(root, fs[i])
      {
        assert i == 0 || i == 1 || i == 2 || i == 3;
      }
    }
  }

  /** Any payload accepted as this record, whatever its key order and extra keys, holds one that can be sent
      and comes back. */
  lemma ServiceErrorCanonical(rt: Runtime, b: seq<Byte>, e: ServiceError)
    requires AcceptsAscii(rt) && DecodeServiceError(rt, b) == Ok(e)
    ensures ServiceErrorValid(rt, e) && DecodeServiceError(rt, EncodeServiceError(e)) == Ok(e)
  {
    var root, fs := Decode(rt, b).value, ServiceErrorFields(e);
    ServiceErrorExact(e, root);
    assert Alike(root, fs[1]) && Alike(root, fs[2]) && Alike(root, fs[3]);
    hide Decode, Judged, Enc, Present, Alike, HoldsAlike, ServiceErrorOf, AcceptsAscii, Ascii, ValidText, TextField,
      UintField;
    DecodedJudged(rt, b);
    TextFieldValid(rt, root, "field", e.field);
    TextFieldValid(rt, root, "message", Some(e.message));
    TextFieldValid(rt, root, "resource_type", e.resourceType);
    ServiceErrorRoundTrip(rt, e);
  }

  lemma ServiceErrorRoundTrip(rt: Runtime, e: ServiceError)
    requires AcceptsAscii(rt) && ServiceErrorValid(rt, e)
    ensures DecodeServiceError(rt, EncodeServiceError(e)) == Ok(e)
  {
    hide Enc, Decode, Present, Increasing, LeafFields, Holds, ServiceErrorOf;
    ServiceErrorLeaves(rt, e);
    LeavesDelivered(rt, ServiceErrorFields(e));
    ServiceErrorRead(e, Decode(rt, EncodeServiceError(e)).value);
  }

  lemma ServiceErrorIgnoresUndeclared(es: seq<Entry>, fs: seq<Entry>)
    requires SameDeclared(es, fs, ServiceErrorKeys()) && DistinctDeclared(es, ServiceErrorKeys())
    ensures ServiceErrorOf(Map(fs)) == ServiceErrorOf(Map(es))
  {
    hide SameDeclared, DistinctDeclared, Get, Ascii;
    DeclaredLookup(es, fs, ServiceErrorKeys(), Ascii("code"));
    DeclaredLookup(es, fs, ServiceErrorKeys(), Ascii("field"));
    DeclaredLookup(es, fs, ServiceErrorKeys(), Ascii("message"));
    DeclaredLookup(es, fs, ServiceErrorKeys(), Ascii("resource_type"));
  }

  // SignedDelivery.

  datatype SignedDelivery = SignedDelivery(
    senderAddress: seq<Byte>,
    algorithm: seq<Byte>,
    keyId: seq<Byte>,
    signature: seq<Byte>,
    body: seq<Byte>)

  function SignedDeliveryFields(d: SignedDelivery): (fs: seq<Field>)
    ensures |fs| == 5
  {
    [
      BytesField("body", d.body),
      TextField("key_id", Some(d.keyId)),
      TextField("algorithm", Some(d.algorithm)),
      TextField("signature", Some(d.signature)),
      TextField("sender_address", Some(d.senderAddress))
    ]
  }

  function SignedDeliveryKeys(): set<seq<Byte>> {
    {Ascii("body"), Ascii("key_id"), Ascii("algorithm"), Ascii("signature"), Ascii("sender_address")}
  }

  function EncodeSignedDelivery(d: SignedDelivery): seq<Byte> {
    Enc(Map(Present(SignedDeliveryFields(d))))
  }

  function SignedDeliveryOf(root: Value): Result<SignedDelivery> {
    var senderAddressField :- Require(root, Ascii("sender_address"));
    var senderAddress :- AsText(senderAddressField);
    var algorithmField :- Require(root, Ascii("algorithm"));
    var algorithm :- AsText(algorithmField);
    var keyIdField :- Require(root, Ascii("key_id"));
    var keyId :- AsText(keyIdField);
    var signatureField :- Require(root, Ascii("signature"));
    var signature :- AsText(signatureField);
    var bodyField :- Require(root, Ascii("body"));
    var body :- AsBytes(bodyField);
    Ok(SignedDelivery(senderAddress, algorithm, keyId, signature, body))
  }

  function DecodeSignedDelivery(rt: Runtime, b: seq<Byte>): Result<SignedDelivery> {
    var root :- Decode(rt, b);
    SignedDeliveryOf(root)
  }

  method CsilEncSignedDelivery(d: SignedDelivery) returns (tree: Value)
    ensures tree == Map(Present(SignedDeliveryFields(d)))
  {
    hide Present, Ascii;
    ghost var fs := SignedDeliveryFields(d);
    var entries := [];
    PresentStep(fs, 0);
    entries := entries + [Entry(Text(Ascii("body")), Bytes(d.body))];
    PresentStep(fs, 1);
    entries := entries + [Entry(Text(Ascii("key_id")), Text(d.keyId))];
    PresentStep(fs, 2);
    entries := entries + [Entry(Text(Ascii("algorithm")), Text(d.algorithm))];
    PresentStep(fs, 3);
    entries := entries + [Entry(Text(Ascii("signature")), Text(d.signature))];
    PresentStep(fs, 4);
    entries := entries + [Entry(Text(Ascii("sender_address")), Text(d.senderAddress))];
    tree := Map(entries);
  }

  /** Whatever is present, the keys written are distinct and in both canonical orders. */
  lemma SignedDeliveryKeysIncrease(d: SignedDelivery)
    ensures Increasing(SignedDeliveryFields(d)) && AsciiKeys(SignedDeliveryFields(d))
    ensures CanonicalKeys(Present(SignedDeliveryFields(d)))
  {
    var fs := SignedDeliveryFields(d);
    NameOrder("body", "key_id", 0);
    NameOrder("key_id", "algorithm", 0);
    NameOrder("algorithm", "signature", 0);
    NameOrder("signature", "sender_address", 0);
    hide LengthFirst, Present, CanonicalKeys;
    NeighboursSuffice(fs);
    EmittedKeysIncrease(fs);
  }

  predicate SignedDeliveryValid(rt: Runtime, d: SignedDelivery) {
    && ValidText(rt, d.senderAddress)
    && ValidText(rt, d.algorithm)
    && ValidText(rt, d.keyId)
    && ValidText(rt, d.signature)
    && |d.body| < TWO_64
  }

  lemma SignedDeliveryLeaves(rt: Runtime, d: SignedDelivery)
    requires SignedDeliveryValid(rt, d)
    ensures Increasing(SignedDeliveryFields(d)) && LeafFields(rt, SignedDeliveryFields(d))
  {
    SignedDeliveryKeysIncrease(d);
    hide Increasing, AsciiKeys, CanonicalKeys, Present, Ascii, ValidText;
  }

  /** Read back in schema order from any map that holds the fields under their keys. */
  lemma SignedDeliveryRead(d: SignedDelivery, root: Value)
    requires Holds(root, SignedDeliveryFields(d))
    ensures SignedDeliveryOf(root) == Ok(d)
  {
    hide Holds, HoldsAlike, SignedDeliveryOf, SignedDeliveryFields;
    HoldsMeansAlike(root, SignedDeliveryFields(d));
    SignedDeliveryExact(d, root);
  }

  /** The maps read as this record: those that hold its fields, in any order and among any others. */
  lemma SignedDeliveryExact(d: SignedDelivery, root: Value)
    ensures SignedDeliveryOf(root) == Ok(d) <==> HoldsAlike(root, SignedDeliveryFields(d))
  {
    var fs := SignedDeliveryFields(d);
    BytesAlike(root, "body", d.body);
    TextAlike(root, "key_id", Some(d.keyId));
    TextAlike(root, "algorithm", Some(d.algorithm));
    TextAlike(root, "signature", Some(d.signature));
    TextAlike(root, "sender_address", Some(d.senderAddress));
    hide Alike, MapGet, Require, Optional, Ascii, AsBytes, AsText, BytesField, TextField;
    if HoldsAlike(root, fs) {
      assert Alike(root, fs[0]) && Alike(root, fs[1]) && Alike(root, fs[2]) && Alike(root, fs[3])
          && Alike(root, fs[4]);
    }
    if Alike(root, fs[0]) && Alike(root, fs[1]) && Alike(root, fs[2]) && Alike(root, fs[3]) && Alike(root, fs[4]) {
      forall i | 0 <= i < 5
        ensures Alike(root, fs[i])
      {
        assert i == 0 || i == 1 || i == 2 || i == 3 || i == 4;
      }
    }
  }

  /** Any payload accepted as this record, whatever its key order and extra keys, holds one that can be sent
      and comes back. */
  lemma SignedDeliveryCanonical(rt: Runtime, b: seq<Byte>, d: SignedDelivery)
    requires AcceptsAscii(rt) && DecodeSignedDelivery(rt, b) == Ok(d)
    ensures SignedDeliveryValid(rt, d) && DecodeSignedDelivery(rt, EncodeSignedDelivery(d)) == Ok(d)
  {
    var root, fs := Decode(rt, b).value, SignedDeliveryFields(d);
    SignedDeliveryExact(d, root);
    assert Alike(root, fs[0]) && Alike(root, fs[1]) && Alike(root, fs[2]) && Alike(root, fs[3]) && Alike(root, fs[4]);
    hide Decode, Judged, Enc, Present, Alike, HoldsAlike, SignedDeliveryOf, AcceptsAscii, Ascii, ValidText, BytesField,
      TextField;
    DecodedJudged(rt, b);
    BytesFieldValid(rt, root, "body", d.body);
    TextFieldValid(rt, root, "key_id", Some(d.keyId));
    TextFieldValid(rt, root, "algorithm", Some(d.algorithm));
    TextFieldValid(rt, root, "signature", Some(d.signature));
    TextFieldValid(rt, root, "sender_address", Some(d.senderAddress));
    SignedDeliveryRoundTrip(rt, d);
  }

  lemma SignedDeliveryRoundTrip(rt: Runtime, d: SignedDelivery)
    requires AcceptsAscii(rt) && SignedDeliveryValid(rt, d)
    ensures DecodeSignedDelivery(rt, EncodeSignedDelivery(d)) == Ok(d)
  {
    hide Enc, Decode, Present, Increasing, LeafFields, Holds, SignedDeliveryOf;
    SignedDeliveryLeaves(rt, d);
    LeavesDelivered(rt, SignedDeliveryFields(d));
    SignedDeliveryRead(d, Decode(rt, EncodeSignedDelivery(d)).value);
  }

  lemma SignedDeliveryIgnoresUndeclared(es: seq<Entry>, fs: seq<Entry>)
    requires SameDeclared(es, fs, SignedDeliveryKeys()) && DistinctDeclared(es, SignedDeliveryKeys())
    ensures SignedDeliveryOf(Map(fs)) == SignedDeliveryOf(Map(es))
  {
    hide SameDeclared, DistinctDeclared, Get, Ascii;
    DeclaredLookup(es, fs, SignedDeliveryKeys(), Ascii("body"));
    DeclaredLookup(es, fs, SignedDeliveryKeys(), Ascii("key_id"));
    DeclaredLookup(es, fs, SignedDeliveryKeys(), Ascii("algorithm"));
    DeclaredLookup(es, fs, SignedDeliveryKeys(), Ascii("signature"));
    DeclaredLookup(es, fs, SignedDeliveryKeys(), Ascii("sender_address"));
  }

  // RecurrenceRule.

  datatype RecurrenceRule = RecurrenceRule(
    freq: seq<Byte>,
    interval: U64,
    weekday: Option<seq<Byte>>,
    ordinal: Option<I64>,
    dayOfMonth: Option<U64>)

  function RecurrenceRuleFields(r: RecurrenceRule): (fs: seq<Field>)
    ensures |fs| == 5
  {
    [
      TextField("freq", Some(r.freq)),
      IntField("ordinal", r.ordinal),
      TextField("weekday", r.weekday),
      UintField("interval", Some(r.interval)),
      UintField("day_of_month", r.dayOfMonth)
    ]
  }

  function RecurrenceRuleKeys(): set<seq<Byte>> {
    {Ascii("freq"), Ascii("ordinal"), Ascii("weekday"), Ascii("interval"), Ascii("day_of_month")}
  }

  function EncodeRecurrenceRule(r: RecurrenceRule): seq<Byte> {
    Enc(Map(Present(RecurrenceRuleFields(r))))
  }

  function AsFrequency(v: Value): Result<seq<Byte>> {
    AsMember(v, Frequencies())
  }

  function AsWeekday(v: Value): Result<seq<Byte>> {
    AsMember(v, Weekdays())
  }

  lemma WordRequired(root: Value, key: string, s: seq<Byte>, words: set<seq<Byte>>)
    ensures Require(root, Ascii(key)).Ok? && AsMember(Require(root, Ascii(key)).value, words) == Ok(s)
        <==> Require(root, Ascii(key)).Ok? && AsText(Require(root, Ascii(key)).value) == Ok(s) && s in words
  {
    hide Require, Ascii;
  }

  lemma WeekdayOptional(root: Value, key: string, s: Option<seq<Byte>>)
    ensures Optional(MapGet(root, Ascii(key)), AsWeekday) == Ok(s)
        <==> Optional(MapGet(root, Ascii(key)), AsText) == Ok(s) && (s.Some? ==> s.value in Weekdays())
  {
    hide MapGet, Ascii, Weekdays;
  }

  function RecurrenceRuleOf(root: Value): Result<RecurrenceRule> {
    var freqField :- Require(root, Ascii("freq"));
    var freq :- AsMember(freqField, Frequencies());
    var intervalField :- Require(root, Ascii("interval"));
    var interval :- AsU64(intervalField);
    var weekday :- Optional(MapGet(root, Ascii("weekday")), AsWeekday);
    var ordinal :- Optional(MapGet(root, Ascii("ordinal")), AsI64);
    var dayOfMonth :- Optional(MapGet(root, Ascii("day_of_month")), AsU64);
    Ok(RecurrenceRule(freq, interval, weekday, ordinal, dayOfMonth))
  }

  function DecodeRecurrenceRule(rt: Runtime, b: seq<Byte>): Result<RecurrenceRule> {
    var root :- Decode(rt, b);
    RecurrenceRuleOf(root)
  }

  method CsilEncRecurrenceRule(r: RecurrenceRule) returns (tree: Value)
    ensures tree == Map(Present(RecurrenceRuleFields(r)))
  {
    hide Present, Ascii;
    ghost var fs := RecurrenceRuleFields(r);
    var entries := [];
    PresentStep(fs, 0);
    entries := entries + [Entry(Text(Ascii("freq")), Text(r.freq))];
    PresentStep(fs, 1);
    if r.ordinal.Some? {
      entries := entries + [Entry(Text(Ascii("ordinal")), Int(r.ordinal.value))];
    }
    PresentStep(fs, 2);
    if r.weekday.Some? {
      entries := entries + [Entry(Text(Ascii("weekday")), Text(r.weekday.value))];
    }
    PresentStep(fs, 3);
    entries := entries + [Entry(Text(Ascii("interval")), Uint(r.interval))];
    PresentStep(fs, 4);
    if r.dayOfMonth.Some? {
      entries := entries + [Entry(Text(Ascii("day_of_month")), Uint(r.dayOfMonth.value))];
    }
    tree := Map(entries);
  }

  /** Whatever is present, the keys written are distinct and in both canonical orders. */
  lemma RecurrenceRuleKeysIncrease(r: RecurrenceRule)
    ensures Increasing(RecurrenceRuleFields(r)) && AsciiKeys(RecurrenceRuleFields(r))
    ensures CanonicalKeys(Present(RecurrenceRuleFields(r)))
  {
    var fs := RecurrenceRuleFields(r);
    NameOrder("freq", "ordinal", 0);
    NameOrder("ordinal", "weekday", 0);
    NameOrder("weekday", "interval", 0);
    NameOrder("interval", "day_of_month", 0);
    hide LengthFirst, Present, CanonicalKeys;
    NeighboursSuffice(fs);
    EmittedKeysIncrease(fs);
  }

  predicate RecurrenceRuleValid(rt: Runtime, r: RecurrenceRule) {
    && ValidText(rt, r.freq)
    && (r.weekday.Some? ==> ValidText(rt, r.weekday.value))
  }

  /** The declared vocabulary: the encoder writes any text, the decoder takes only these. */
  predicate RecurrenceRuleDeclared(r: RecurrenceRule) {
    && r.freq in Frequencies()
    && (r.weekday.Some? ==> r.weekday.value in Weekdays())
  }

  lemma RecurrenceRuleLeaves(rt: Runtime, r: RecurrenceRule)
    requires RecurrenceRuleValid(rt, r)
    ensures Increasing(RecurrenceRuleFields(r)) && LeafFields(rt, RecurrenceRuleFields(r))
  {
    RecurrenceRuleKeysIncrease(r);
    hide Increasing, AsciiKeys, CanonicalKeys, Present, Ascii, ValidText;
  }

  /** Read back in schema order from any map that holds the fields under their keys. */
  lemma RecurrenceRuleRead(r: RecurrenceRule, root: Value)
    requires Holds(root, RecurrenceRuleFields(r))
    ensures RecurrenceRuleOf(root) == if RecurrenceRuleDeclared(r) then Ok(r) else Err(NotInEnum)
  {
    var fs := RecurrenceRuleFields(r);
    hide Norm, Holds, Ascii, MapGet;
    Held(root, fs, 0);
    Held(root, fs, 1);
    Held(root, fs, 2);
    Held(root, fs, 3);
    Held(root, fs, 4);
    NormPlain();
  }

  /** The maps read as this record: those that hold its fields, in any order and among any others, if its
      words are declared. */
  lemma RecurrenceRuleExact(r: RecurrenceRule, root: Value)
    ensures RecurrenceRuleOf(root) == Ok(r)
        <==> HoldsAlike(root, RecurrenceRuleFields(r)) && RecurrenceRuleDeclared(r)
  {
    var fs := RecurrenceRuleFields(r);
    TextAlike(root, "freq", Some(r.freq));
    IntAlike(root, "ordinal", r.ordinal);
    TextAlike(root, "weekday", r.weekday);
    UintAlike(root, "interval", Some(r.interval));
    UintAlike(root, "day_of_month", r.dayOfMonth);
    WordRequired(root, "freq", r.freq, Frequencies());
    WeekdayOptional(root, "weekday", r.weekday);
    hide Alike, MapGet, Require, Optional, Ascii, AsI64, AsText, AsU64, IntField, TextField, UintField, AsMember,
      AsWeekday, Frequencies, Weekdays;
    if HoldsAlike(root, fs) {
      assert Alike(root, fs[0]) && Alike(root, fs[1]) && Alike(root, fs[2]) && Alike(root, fs[3])
          && Alike(root, fs[4]);
    }
    if Alike(root, fs[0]) && Alike(root, fs[1]) && Alike(root, fs[2]) && Alike(root, fs[3]) && Alike(root, fs[4]) {
      forall i | 0 <= i < 5
        ensures Alike(root, fs[i])
      {
        assert i == 0 || i == 1 || i == 2 || i == 3 || i == 4;
      }
    }
  }

  /** Any payload accepted as this record, whatever its key order and extra keys, holds one that can be sent
      and comes back. */
  lemma RecurrenceRuleCanonical(rt: Runtime, b: seq<Byte>, r: RecurrenceRule)
    requires AcceptsAscii(rt) && DecodeRecurrenceRule(rt, b) == Ok(r)
    ensures RecurrenceRuleValid(rt, r) && DecodeRecurrenceRule(rt, EncodeRecurrenceRule(r)) == Ok(r)
  {
    RecurrenceRuleExact(r, Decode(rt, b).value);
    hide RecurrenceRuleOf, HoldsAlike, Decode, EncodeRecurrenceRule, RecurrenceRuleDeclared, RecurrenceRuleValid,
      AcceptsAscii, RecurrenceRuleFields;
    RecurrenceRuleTexts(rt, b, r);
    RecurrenceRuleRoundTrip(rt, r);
  }

  lemma RecurrenceRuleTexts(rt: Runtime, b: seq<Byte>, r: RecurrenceRule)
    requires Decode(rt, b).Ok? && HoldsAlike(Decode(rt, b).value, RecurrenceRuleFields(r))
    ensures RecurrenceRuleValid(rt, r)
  {
    var root, fs := Decode(rt, b).value, RecurrenceRuleFields(r);
    assert Alike(root, fs[0]) && Alike(root, fs[2]);
    hide Decode, Judged, Alike, HoldsAlike, Ascii, ValidText, IntField, TextField, UintField;
    DecodedJudged(rt, b);
    TextFieldValid(rt, root, "freq", Some(r.freq));
    TextFieldValid(rt, root, "weekday", r.weekday);
  }

  lemma RecurrenceRuleRoundTrip(rt: Runtime, r: RecurrenceRule)
    requires AcceptsAscii(rt) && RecurrenceRuleValid(rt, r)
    ensures DecodeRecurrenceRule(rt, EncodeRecurrenceRule(r))
        == if RecurrenceRuleDeclared(r) then Ok(r) else Err(NotInEnum)
  {
    hide Enc, Decode, Present, Increasing, LeafFields, Holds, RecurrenceRuleOf;
    RecurrenceRuleLeaves(rt, r);
    LeavesDelivered(rt, RecurrenceRuleFields(r));
    RecurrenceRuleRead(r, Decode(rt, EncodeRecurrenceRule(r)).value);
  }

  lemma RecurrenceRuleIgnoresUndeclared(es: seq<Entry>, fs: seq<Entry>)
    requires SameDeclared(es, fs, RecurrenceRuleKeys()) && DistinctDeclared(es, RecurrenceRuleKeys())
    ensures RecurrenceRuleOf(Map(fs)) == RecurrenceRuleOf(Map(es))
  {
    hide SameDeclared, DistinctDeclared, Get, Ascii;
    DeclaredLookup(es, fs, RecurrenceRuleKeys(), Ascii("freq"));
    DeclaredLookup(es, fs, RecurrenceRuleKeys(), Ascii("ordinal"));
    DeclaredLookup(es, fs, RecurrenceRuleKeys(), Ascii("weekday"));
    DeclaredLookup(es, fs, RecurrenceRuleKeys(), Ascii("interval"));
    DeclaredLookup(es, fs, RecurrenceRuleKeys(), Ascii("day_of_month"));
  }

  // Location.

  datatype Location = Location(
    name: seq<Byte>,
    address: seq<Byte>,
    locality: seq<Byte>,
    region: seq<Byte>,
    postalCode: seq<Byte>,
    country: seq<Byte>,
    latitude: Option<U64>,
    longitude: Option<U64>)

  function LocationFields(l: Location): (fs: seq<Field>)
    ensures |fs| == 8
  {
    [
      TextField("name", Some(l.name)),
      TextField("region", Some(l.region)),
      TextField("address", Some(l.address)),
      TextField("country", Some(l.country)),
      FloatField("latitude", l.latitude),
      TextField("locality", Some(l.locality)),
      FloatField("longitude", l.longitude),
      TextField("postal_code", Some(l.postalCode))
    ]
  }

  function LocationKeys(): set<seq<Byte>> {
    {Ascii("name"), Ascii("region"), Ascii("address"), Ascii("country"), Ascii("latitude"), Ascii("locality"),
        Ascii("longitude"), Ascii("postal_code")}
  }

  function EncodeLocation(l: Location): seq<Byte> {
    Enc(Map(Present(LocationFields(l))))
  }

  function LocationOf(root: Value): Result<Location> {
    var nameField :- Require(root, Ascii("name"));
    var name :- AsText(nameField);
    var addressField :- Require(root, Ascii("address"));
    var address :- AsText(addressField);
    var localityField :- Require(root, Ascii("locality"));
    var locality :- AsText(localityField);
    var regionField :- Require(root, Ascii("region"));
    var region :- AsText(regionField);
    var postalCodeField :- Require(root, Ascii("postal_code"));
    var postalCode :- AsText(postalCodeField);
    var countryField :- Require(root, Ascii("country"));
    var country :- AsText(countryField);
    var latitude :- Optional(MapGet(root, Ascii("latitude")), AsF64);
    var longitude :- Optional(MapGet(root, Ascii("longitude")), AsF64);
    Ok(Location(name, address, locality, region, postalCode, country, latitude, longitude))
  }

  function DecodeLocation(rt: Runtime, b: seq<Byte>): Result<Location> {
    var root :- Decode(rt, b);
    LocationOf(root)
  }

  method CsilEncLocation(l: Location) returns (tree: Value)
    ensures tree == Map(Present(LocationFields(l)))
  {
    hide Present, Ascii;
    ghost var fs := LocationFields(l);
    var entries := [];
    PresentStep(fs, 0);
    entries := entries + [Entry(Text(Ascii("name")), Text(l.name))];
    PresentStep(fs, 1);
    entries := entries + [Entry(Text(Ascii("region")), Text(l.region))];
    PresentStep(fs, 2);
    entries := entries + [Entry(Text(Ascii("address")), Text(l.address))];
    PresentStep(fs, 3);
    entries := entries + [Entry(Text(Ascii("country")), Text(l.country))];
    PresentStep(fs, 4);
    if l.latitude.Some? {
      entries := entries + [Entry(Text(Ascii("latitude")), Float(l.latitude.value))];
    }
    PresentStep(fs, 5);
    entries := entries + [Entry(Text(Ascii("locality")), Text(l.locality))];
    PresentStep(fs, 6);
    if l.longitude.Some? {
      entries := entries + [Entry(Text(Ascii("longitude")), Float(l.longitude.value))];
    }
    PresentStep(fs, 7);
    entries := entries + [Entry(Text(Ascii("postal_code")), Text(l.postalCode))];
    tree := Map(entries);
  }

  /** Whatever is present, the keys written are distinct and in both canonical orders. */
  lemma LocationKeysIncrease(l: Location)
    ensures Increasing(LocationFields(l)) && AsciiKeys(LocationFields(l))
    ensures CanonicalKeys(Present(LocationFields(l)))
  {
    var fs := LocationFields(l);
    NameOrder("name", "region", 0);
    NameOrder("region", "address", 0);
    NameOrder("address", "country", 0);
    NameOrder("country", "latitude", 0);
    NameOrder("latitude", "locality", 1);
    NameOrder("locality", "longitude", 0);
    NameOrder("longitude", "postal_code", 0);
    hide LengthFirst, Present, CanonicalKeys;
    NeighboursSuffice(fs);
    EmittedKeysIncrease(fs);
  }

  predicate LocationValid(rt: Runtime, l: Location) {
    && ValidText(rt, l.name)
    && ValidText(rt, l.address)
    && ValidText(rt, l.locality)
    && ValidText(rt, l.region)
    && ValidText(rt, l.postalCode)
    && ValidText(rt, l.country)
  }

  lemma LocationLeaves(rt: Runtime, l: Location)
    requires LocationValid(rt, l)
    ensures Increasing(LocationFields(l)) && LeafFields(rt, LocationFields(l))
  {
    LocationKeysIncrease(l);
    hide Increasing, AsciiKeys, CanonicalKeys, Present, Ascii, ValidText;
  }

  /** Read back in schema order from any map that holds the fields under their keys. */
  lemma LocationRead(l: Location, root: Value)
    requires Holds(root, LocationFields(l))
    ensures LocationOf(root) == Ok(l)
  {
    var fs := LocationFields(l);
    hide Norm, Holds, Ascii, MapGet;
    Held(root, fs, 0);
    Held(root, fs, 1);
    Held(root, fs, 2);
    Held(root, fs, 3);
    Held(root, fs, 4);
    Held(root, fs, 5);
    Held(root, fs, 6);
    Held(root, fs, 7);
    NormPlain();
  }

  /** The texts of a location. */
  function LocationTexts(l: Location): (fs: seq<Field>)
    ensures |fs| == 6
  {
    [
      TextField("name", Some(l.name)),
      TextField("address", Some(l.address)),
      TextField("locality", Some(l.locality)),
      TextField("region", Some(l.region)),
      TextField("postal_code", Some(l.postalCode)),
      TextField("country", Some(l.country))
    ]
  }

  /** The key holds this coordinate, as a float or as an integer that converts to it; an absent one is not there. */
  ghost predicate HoldsCoordinate(root: Value, key: string, c: Option<U64>) {
    match MapGet(root, Ascii(key))
    case None => c.None?
    case Some(Float(bits)) => c == Some(bits)
    case Some(Uint(u)) => c == Some(OfNat(u))
    case Some(Int(i)) => c == Some(OfInt(i))
    case Some(_) => false
  }

  lemma CoordinateExact(root: Value, key: string, c: Option<U64>)
    ensures HoldsCoordinate(root, key, c) <==> Optional(MapGet(root, Ascii(key)), AsF64) == Ok(c)
  {
    hide MapGet, Ascii, OfNat, OfInt;
  }

  ghost predicate HoldsLocation(root: Value, l: Location) {
    && HoldsAlike(root, LocationTexts(l))
    && HoldsCoordinate(root, "latitude", l.latitude) && HoldsCoordinate(root, "longitude", l.longitude)
  }

  /** The maps read as this location. */
  lemma LocationExact(l: Location, root: Value)
    ensures LocationOf(root) == Ok(l) <==> HoldsLocation(root, l)
  {
    var fs := LocationTexts(l);
    TextAlike(root, "name", Some(l.name));
    TextAlike(root, "address", Some(l.address));
    TextAlike(root, "locality", Some(l.locality));
    TextAlike(root, "region", Some(l.region));
    TextAlike(root, "postal_code", Some(l.postalCode));
    TextAlike(root, "country", Some(l.country));
    CoordinateExact(root, "latitude", l.latitude);
    CoordinateExact(root, "longitude", l.longitude);
    hide Alike, MapGet, Require, Optional, Ascii, AsText, AsF64, TextField, HoldsCoordinate;
    if HoldsAlike(root, fs) {
      assert Alike(root, fs[0]) && Alike(root, fs[1]) && Alike(root, fs[2]) && Alike(root, fs[3])
          && Alike(root, fs[4])
        && Alike(root, fs[5]);
    }
    if Alike(root, fs[0]) && Alike(root, fs[1]) && Alike(root, fs[2]) && Alike(root, fs[3]) && Alike(root, fs[4])
      && Alike(root, fs[5])
    {
      forall i | 0 <= i < 6
        ensures Alike(root, fs[i])
      {
        assert i == 0 || i == 1 || i == 2 || i == 3 || i == 4 || i == 5;
      }
    }
  }

  /** Any payload accepted as this record, whatever its key order and extra keys, holds one that can be sent
      and comes back. */
  lemma LocationCanonical(rt: Runtime, b: seq<Byte>, l: Location)
    requires AcceptsAscii(rt) && DecodeLocation(rt, b) == Ok(l)
    ensures LocationValid(rt, l) && DecodeLocation(rt, EncodeLocation(l)) == Ok(l)
  {
    var root, fs := Decode(rt, b).value, LocationTexts(l);
    LocationExact(l, root);
    assert Alike(root, fs[0]) && Alike(root, fs[1]) && Alike(root, fs[2]) && Alike(root, fs[3]) && Alike(root, fs[4])
      && Alike(root, fs[5]);
    hide Decode, Judged, Enc, Present, Alike, HoldsLocation, LocationOf, AcceptsAscii, Ascii, ValidText, TextField;
    DecodedJudged(rt, b);
    TextFieldValid(rt, root, "name", Some(l.name));
    TextFieldValid(rt, root, "address", Some(l.address));
    TextFieldValid(rt, root, "locality", Some(l.locality));
    TextFieldValid(rt, root, "region", Some(l.region));
    TextFieldValid(rt, root, "postal_code", Some(l.postalCode));
    TextFieldValid(rt, root, "country", Some(l.country));
    LocationRoundTrip(rt, l);
  }

  lemma LocationRoundTrip(rt: Runtime, l: Location)
    requires AcceptsAscii(rt) && LocationValid(rt, l)
    ensures DecodeLocation(rt, EncodeLocation(l)) == Ok(l)
  {
    hide Enc, Decode, Present, Increasing, LeafFields, Holds, LocationOf;
    LocationLeaves(rt, l);
    LeavesDelivered(rt, LocationFields(l));
    LocationRead(l, Decode(rt, EncodeLocation(l)).value);
  }

  lemma LocationIgnoresUndeclared(es: seq<Entry>, fs: seq<Entry>)
    requires SameDeclared(es, fs, LocationKeys()) && DistinctDeclared(es, LocationKeys())
    ensures LocationOf(Map(fs)) == LocationOf(Map(es))
  {
    hide SameDeclared, DistinctDeclared, Get, Ascii;
    DeclaredLookup(es, fs, LocationKeys(), Ascii("name"));
    DeclaredLookup(es, fs, LocationKeys(), Ascii("region"));
    DeclaredLookup(es, fs, LocationKeys(), Ascii("address"));
    DeclaredLookup(es, fs, LocationKeys(), Ascii("country"));
    DeclaredLookup(es, fs, LocationKeys(), Ascii("latitude"));
    DeclaredLookup(es, fs, LocationKeys(), Ascii("locality"));
    DeclaredLookup(es, fs, LocationKeys(), Ascii("longitude"));
    DeclaredLookup(es, fs, LocationKeys(), Ascii("postal_code"));
  }
}
