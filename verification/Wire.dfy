/** The wire form of every record, byte by byte: keys written out, and each value in its own head. */
module Wire {
  import opened Machine
  import opened CborTree
  import opened Encoder
  import opened Fields
  import opened Collections
  import opened Records
  import opened Gatherings
  import opened Names
  import KeyOrder
  import Transport

  // How a value goes out.

  function UintItem(u: U64): seq<Byte> {
    Head(0, u)
  }

  function IntItem(i: I64): seq<Byte> {
    if i >= 0 then Head(0, i) else Head(1, -1 - i)
  }

  function TextItem(s: seq<Byte>): seq<Byte> {
    Head(3, |s|) + s
  }

  function BytesItem(d: seq<Byte>): seq<Byte> {
    Head(2, |d|) + d
  }

  function BoolItem(b: bool): seq<Byte> {
    [if b then 0xf5 else 0xf4]
  }

  function FloatItem(bits: U64): seq<Byte> {
    [0xfb] + BigEndian(bits, 8)
  }

  /** A key and its value, and both if there is a value. */
  function Pair(key: seq<Byte>, item: seq<Byte>): seq<Byte> {
    TextItem(key) + item
  }

  function Put<T>(key: seq<Byte>, v: Option<T>, item: T -> seq<Byte>): seq<Byte> {
    if v.Some? then Pair(key, item(v.value)) else []
  }

  function Count<T>(v: Option<T>): nat {
    if v.Some? then 1 else 0
  }

  lemma LeafItems(u: U64, i: I64, s: seq<Byte>, b: bool)
    ensures Enc(Uint(u)) == UintItem(u) && Enc(Int(i)) == IntItem(i) && Enc(Float(u)) == FloatItem(u)
    ensures Enc(Text(s)) == TextItem(s) && Enc(Bytes(s)) == BytesItem(s) && Enc(Bool(b)) == BoolItem(b)
  {
    hide *;
    NumberItems(u, i);
    StringItems(s, b);
  }

  lemma NumberItems(u: U64, i: I64)
    ensures Enc(Uint(u)) == UintItem(u) && Enc(Int(i)) == IntItem(i) && Enc(Float(u)) == FloatItem(u)
  {
    hide Head, BigEndian, Enc;
    LeafBytes(Uint(u));
    LeafBytes(Int(i));
    LeafBytes(Float(u));
  }

  lemma StringItems(s: seq<Byte>, b: bool)
    ensures Enc(Text(s)) == TextItem(s) && Enc(Bytes(s)) == BytesItem(s) && Enc(Bool(b)) == BoolItem(b)
  {
    hide Head, BigEndian, Enc;
    LeafBytes(Text(s));
    LeafBytes(Bytes(s));
    LeafBytes(Bool(b));
  }

  lemma LeafBytes(v: Value)
    requires IsLeaf(v)
    ensures Enc(v) == EncFrame(Leaf(v))
  {
    hide EncFrame;
    assert Kids(v) == [] && EncAll([]) == [] && FrameOf(v) == Leaf(v);
  }

  // The bytes of a list of declared fields.

  function Line(f: Field): seq<Byte> {
    if f.value.Some? then Enc(Text(f.key)) + Enc(f.value.value) else []
  }

  function Lines(fs: seq<Field>): seq<Byte> {
    if fs == [] then [] else Lines(fs[..|fs| - 1]) + Line(fs[|fs| - 1])
  }

  function Total(fs: seq<Field>): nat {
    if fs == [] then 0 else Total(fs[..|fs| - 1]) + Count(fs[|fs| - 1].value)
  }

  lemma LinesStep(fs: seq<Field>, i: nat)
    requires i < |fs|
    ensures Lines(fs[..i + 1]) == Lines(fs[..i]) + Line(fs[i])
    ensures Total(fs[..i + 1]) == Total(fs[..i]) + Count(fs[i].value)
    ensures fs[..|fs|] == fs && Lines(fs[..0]) == [] && Total(fs[..0]) == 0
  {
    hide Line;
    assert fs[..i + 1][..i] == fs[..i];
  }

  lemma {:induction false} PresentBytes(fs: seq<Field>)
    ensures EncAll(Flatten(Present(fs))) == Lines(fs) && |Present(fs)| == Total(fs)
  {
    if fs == [] {
      assert Flatten([]) == [] && EncAll([]) == [];
    } else {
      var front, f := fs[..|fs| - 1], fs[|fs| - 1];
      PresentBytes(front);
      if f.value.Some? {
        hide Enc, EncAll, Flatten;
        FlattenSnoc(Present(front), Entry(Text(f.key), f.value.value));
        EncAllPair(Text(f.key), f.value.value);
        EncAllAppend(Flatten(Present(front)), [Text(f.key), f.value.value]);
      } else {
        hide Enc, EncAll, Flatten;
        assert Present(fs) == Present(front) && Lines(fs) == Lines(front);
      }
    }
  }

  /** A record is the head of a map and its lines. */
  lemma MapBytes(fs: seq<Field>)
    requires |fs| < 24
    ensures Enc(Map(Present(fs))) == [0xa0 + Total(fs)] + Lines(fs) && Total(fs) <= |fs|
  {
    PresentBytes(fs);
    hide Flatten, EncAll, Present, Lines, Total, Head, Enc;
    MapItem(Present(fs));
    SmallMapHead(|Present(fs)|);
  }

  lemma MapItem(es: seq<Entry>)
    ensures Enc(Map(es)) == Head(5, |es|) + EncAll(Flatten(es))
  {
    var v := Map(es);
    assert Kids(v) == Flatten(es) && EncFrame(FrameOf(v)) == Head(5, |es|);
    assert Enc(v) == EncFrame(FrameOf(v)) + EncAll(Kids(v)) by {
      hide EncFrame, EncAll, FrameOf, Kids;
    }
    hide *;
  }

  lemma ArrayItem(vs: seq<Value>)
    ensures Enc(Array(vs)) == Head(4, |vs|) + EncAll(vs)
  {
    var v := Array(vs);
    assert Kids(v) == vs && EncFrame(FrameOf(v)) == Head(4, |vs|);
    assert Enc(v) == EncFrame(FrameOf(v)) + EncAll(Kids(v)) by {
      hide EncFrame, EncAll, FrameOf, Kids;
    }
    hide *;
  }

  lemma SmallMapHead(n: nat)
    requires n < 24
    ensures Head(5, n) == [0xa0 + n]
  {
  }

  lemma UintLine(key: string, name: seq<Byte>, v: Option<U64>)
    requires Ascii(key) == name
    ensures Line(UintField(key, v)) == Put(name, v, UintItem) && Count(UintField(key, v).value) == Count(v)
    ensures v.Some? ==> Line(UintField(key, v)) == Pair(name, UintItem(v.value)) && Count(v) == 1
  {
    LeafItems(0, 0, name, false);
    if v.Some? {
      LeafItems(v.value, 0, [], false);
    }
    hide Enc, Ascii, UintItem, IntItem, TextItem, FloatItem;
  }

  lemma IntLine(key: string, name: seq<Byte>, v: Option<I64>)
    requires Ascii(key) == name
    ensures Line(IntField(key, v)) == Put(name, v, IntItem) && Count(IntField(key, v).value) == Count(v)
    ensures v.Some? ==> Line(IntField(key, v)) == Pair(name, IntItem(v.value)) && Count(v) == 1
  {
    LeafItems(0, 0, name, false);
    if v.Some? {
      LeafItems(0, v.value, [], false);
    }
    hide Enc, Ascii, UintItem, IntItem, TextItem, FloatItem;
  }

  lemma TextLine(key: string, name: seq<Byte>, v: Option<seq<Byte>>)
    requires Ascii(key) == name
    ensures Line(TextField(key, v)) == Put(name, v, TextItem) && Count(TextField(key, v).value) == Count(v)
    ensures v.Some? ==> Line(TextField(key, v)) == Pair(name, TextItem(v.value)) && Count(v) == 1
  {
    LeafItems(0, 0, name, false);
    if v.Some? {
      LeafItems(0, 0, v.value, false);
    }
    hide Enc, Ascii, UintItem, IntItem, TextItem, FloatItem;
  }

  lemma FloatLine(key: string, name: seq<Byte>, v: Option<U64>)
    requires Ascii(key) == name
    ensures Line(FloatField(key, v)) == Put(name, v, FloatItem) && Count(FloatField(key, v).value) == Count(v)
    ensures v.Some? ==> Line(FloatField(key, v)) == Pair(name, FloatItem(v.value)) && Count(v) == 1
  {
    LeafItems(0, 0, name, false);
    if v.Some? {
      LeafItems(v.value, 0, [], false);
    }
    hide Enc, Ascii, UintItem, IntItem, TextItem, FloatItem;
  }

  lemma BytesLine(key: string, name: seq<Byte>, v: seq<Byte>)
    requires Ascii(key) == name
    ensures Line(BytesField(key, v)) == Pair(name, BytesItem(v)) && Count(BytesField(key, v).value) == 1
  {
    LeafItems(0, 0, name, false);
    LeafItems(0, 0, v, false);
    hide Enc, Ascii, BytesItem, BoolItem, TextItem;
  }

  lemma BoolLine(key: string, name: seq<Byte>, v: bool)
    requires Ascii(key) == name
    ensures Line(BoolField(key, v)) == Pair(name, BoolItem(v)) && Count(BoolField(key, v).value) == 1
  {
    LeafItems(0, 0, name, false);
    LeafItems(0, 0, [], v);
    hide Enc, Ascii, BytesItem, BoolItem, TextItem;
  }

  lemma Lines2(f0: Field, f1: Field)
    ensures Lines([f0, f1]) == Line(f0) + Line(f1)
    ensures Total([f0, f1])
         == Count(f0.value) + Count(f1.value)
  {
    var fs := [f0, f1];
    hide Line, Count, Lines, Total;
    LinesStep(fs, 0);
    LinesStep(fs, 1);
  }

  lemma Lines3(f0: Field, f1: Field, f2: Field)
    ensures Lines([f0, f1, f2]) == Line(f0) + Line(f1) + Line(f2)
    ensures Total([f0, f1, f2])
         == Count(f0.value) + Count(f1.value) + Count(f2.value)
  {
    var fs := [f0, f1, f2];
    hide Line, Count, Lines, Total;
    LinesStep(fs, 0);
    LinesStep(fs, 1);
    LinesStep(fs, 2);
  }

  lemma Lines4(f0: Field, f1: Field, f2: Field, f3: Field)
    ensures Lines([f0, f1, f2, f3]) == Line(f0) + Line(f1) + Line(f2) + Line(f3)
    ensures Total([f0, f1, f2, f3])
         == Count(f0.value) + Count(f1.value) + Count(f2.value) + Count(f3.value)
  {
    var fs := [f0, f1, f2, f3];
    hide Line, Count, Lines, Total;
    LinesStep(fs, 0);
    LinesStep(fs, 1);
    LinesStep(fs, 2);
    LinesStep(fs, 3);
  }

  lemma Lines5(f0: Field, f1: Field, f2: Field, f3: Field, f4: Field)
    ensures Lines([f0, f1, f2, f3, f4]) == Line(f0) + Line(f1) + Line(f2) + Line(f3) + Line(f4)
    ensures Total([f0, f1, f2, f3, f4])
         == Count(f0.value) + Count(f1.value) + Count(f2.value) + Count(f3.value) + Count(f4.value)
  {
    var fs := [f0, f1, f2, f3, f4];
    hide Line, Count, Lines, Total;
    LinesStep(fs, 0);
    LinesStep(fs, 1);
    LinesStep(fs, 2);
    LinesStep(fs, 3);
    LinesStep(fs, 4);
  }

  lemma Lines8(f0: Field, f1: Field, f2: Field, f3: Field, f4: Field, f5: Field, f6: Field, f7: Field)
    ensures Lines([f0, f1, f2, f3, f4, f5, f6,
        f7]) == Line(f0) + Line(f1) + Line(f2) + Line(f3) + Line(f4) + Line(f5) + Line(f6) + Line(f7)
    ensures Total([f0, f1, f2, f3, f4, f5, f6, f7])
         == Count(f0.value) + Count(f1.value) + Count(f2.value) + Count(f3.value) + Count(f4.value)
          + Count(f5.value) + Count(f6.value) + Count(f7.value)
  {
    var fs := [f0, f1, f2, f3, f4, f5, f6, f7];
    hide Line, Count, Lines, Total;
    LinesStep(fs, 0);
    LinesStep(fs, 1);
    LinesStep(fs, 2);
    LinesStep(fs, 3);
    LinesStep(fs, 4);
    LinesStep(fs, 5);
    LinesStep(fs, 6);
    LinesStep(fs, 7);
  }

  lemma Lines9(f0: Field, f1: Field, f2: Field, f3: Field, f4: Field, f5: Field, f6: Field, f7: Field, f8: Field)
    ensures Lines([f0, f1, f2, f3, f4, f5, f6, f7,
        f8]) == Line(f0) + Line(f1) + Line(f2) + Line(f3) + Line(f4) + Line(f5) + Line(f6) + Line(f7) + Line(f8)
    ensures Total([f0, f1, f2, f3, f4, f5, f6, f7, f8])
         == Count(f0.value) + Count(f1.value) + Count(f2.value) + Count(f3.value) + Count(f4.value)
          + Count(f5.value) + Count(f6.value) + Count(f7.value) + Count(f8.value)
  {
    var fs := [f0, f1, f2, f3, f4, f5, f6, f7, f8];
    hide Line, Count, Lines, Total;
    LinesStep(fs, 0);
    LinesStep(fs, 1);
    LinesStep(fs, 2);
    LinesStep(fs, 3);
    LinesStep(fs, 4);
    LinesStep(fs, 5);
    LinesStep(fs, 6);
    LinesStep(fs, 7);
    LinesStep(fs, 8);
  }

  // The flat records.

  lemma PageLines(p: Page)
    ensures Total(PageFields(p)) == 0 + Count(p.limit) + Count(p.offset)
    ensures Lines(PageFields(p))
         == Put(LimitName(), p.limit, UintItem)
               + Put(OffsetName(), p.offset, UintItem)
  {
    var fs := PageFields(p);
    Lines2(
      UintField("limit", p.limit),
      UintField("offset", p.offset));
    assert fs == [
      UintField("limit", p.limit),
      UintField("offset", p.offset)];
    hide Lines, Total, Line, Ascii, Pair, Put, Count, UintField, UintItem, LimitName, OffsetName, PageFields;
    LimitBytes();
    UintLine("limit", LimitName(), p.limit);
    OffsetBytes();
    UintLine("offset", OffsetName(), p.offset);
  }

  lemma PageWire(p: Page)
    ensures EncodePage(p)
         == [0xa0 + Count(p.limit) + Count(p.offset)]
            + (Put(LimitName(), p.limit, UintItem)
               + Put(OffsetName(), p.offset, UintItem))
  {
    PageLines(p);
    hide Enc, Present, Lines, Total, Pair, Put, Count, PageFields;
    MapBytes(PageFields(p));
  }

  lemma ServiceErrorLines(e: ServiceError)
    ensures Total(ServiceErrorFields(e)) == 2 + Count(e.field) + Count(e.resourceType)
    ensures Lines(ServiceErrorFields(e))
         == Pair(CodeName(), UintItem(e.code))
               + Put(FieldName(), e.field, TextItem)
               + Pair(MessageName(), TextItem(e.message))
               + Put(ResourceTypeName(), e.resourceType, TextItem)
  {
    var fs := ServiceErrorFields(e);
    Lines4(
      UintField("code", Some(e.code)),
      TextField("field", e.field),
      TextField("message", Some(e.message)),
      TextField("resource_type", e.resourceType));
    assert fs == [
      UintField("code", Some(e.code)),
      TextField("field", e.field),
      TextField("message", Some(e.message)),
      TextField("resource_type", e.resourceType)];
    hide Lines, Total, Line, Ascii, Pair, Put, Count, TextField, TextItem, UintField, UintItem, CodeName,
        FieldName, MessageName, ResourceTypeName, ServiceErrorFields;
    CodeBytes();
    UintLine("code", CodeName(), Some(e.code));
    FieldBytes();
    TextLine("field", FieldName(), e.field);
    MessageBytes();
    TextLine("message", MessageName(), Some(e.message));
    ResourceTypeBytes();
    TextLine("resource_type", ResourceTypeName(), e.resourceType);
  }

  lemma ServiceErrorWire(e: ServiceError)
    ensures EncodeServiceError(e)
         == [0xa2 + Count(e.field) + Count(e.resourceType)]
            + (Pair(CodeName(), UintItem(e.code))
               + Put(FieldName(), e.field, TextItem)
               + Pair(MessageName(), TextItem(e.message))
               + Put(ResourceTypeName(), e.resourceType, TextItem))
  {
    ServiceErrorLines(e);
    hide Enc, Present, Lines, Total, Pair, Put, Count, ServiceErrorFields;
    MapBytes(ServiceErrorFields(e));
  }

  lemma SignedDeliveryLines(d: SignedDelivery)
    ensures Total(SignedDeliveryFields(d)) == 5
    ensures Lines(SignedDeliveryFields(d))
         == Pair(BodyName(), BytesItem(d.body))
               + Pair(KeyIdName(), TextItem(d.keyId))
               + Pair(AlgorithmName(), TextItem(d.algorithm))
               + Pair(SignatureName(), TextItem(d.signature))
               + Pair(SenderAddressName(), TextItem(d.senderAddress))
  {
    var fs := SignedDeliveryFields(d);
    Lines5(
      BytesField("body", d.body),
      TextField("key_id", Some(d.keyId)),
      TextField("algorithm", Some(d.algorithm)),
      TextField("signature", Some(d.signature)),
      TextField("sender_address", Some(d.senderAddress)));
    assert fs == [
      BytesField("body", d.body),
      TextField("key_id", Some(d.keyId)),
      TextField("algorithm", Some(d.algorithm)),
      TextField("signature", Some(d.signature)),
      TextField("sender_address", Some(d.senderAddress))];
    hide Lines, Total, Line, Ascii, Pair, Put, Count, BytesField, BytesItem, TextField, TextItem, BodyName,
        KeyIdName, AlgorithmName, SignatureName, SenderAddressName, SignedDeliveryFields;
    BodyBytes();
    BytesLine("body", BodyName(), d.body);
    KeyIdBytes();
    TextLine("key_id", KeyIdName(), Some(d.keyId));
    AlgorithmBytes();
    TextLine("algorithm", AlgorithmName(), Some(d.algorithm));
    SignatureBytes();
    TextLine("signature", SignatureName(), Some(d.signature));
    SenderAddressBytes();
    TextLine("sender_address", SenderAddressName(), Some(d.senderAddress));
  }

  lemma SignedDeliveryWire(d: SignedDelivery)
    ensures EncodeSignedDelivery(d)
         == [0xa5]
            + (Pair(BodyName(), BytesItem(d.body))
               + Pair(KeyIdName(), TextItem(d.keyId))
               + Pair(AlgorithmName(), TextItem(d.algorithm))
               + Pair(SignatureName(), TextItem(d.signature))
               + Pair(SenderAddressName(), TextItem(d.senderAddress)))
  {
    SignedDeliveryLines(d);
    hide Enc, Present, Lines, Total, Pair, Put, Count, SignedDeliveryFields;
    MapBytes(SignedDeliveryFields(d));
  }

  lemma RecurrenceRuleLines(r: RecurrenceRule)
    ensures Total(RecurrenceRuleFields(r)) == 2 + Count(r.ordinal) + Count(r.weekday) + Count(r.dayOfMonth)
    ensures Lines(RecurrenceRuleFields(r))
         == Pair(FreqName(), TextItem(r.freq))
               + Put(OrdinalName(), r.ordinal, IntItem)
               + Put(WeekdayName(), r.weekday, TextItem)
               + Pair(IntervalName(), UintItem(r.interval))
               + Put(DayOfMonthName(), r.dayOfMonth, UintItem)
  {
    var fs := RecurrenceRuleFields(r);
    Lines5(
      TextField("freq", Some(r.freq)),
      IntField("ordinal", r.ordinal),
      TextField("weekday", r.weekday),
      UintField("interval", Some(r.interval)),
      UintField("day_of_month", r.dayOfMonth));
    assert fs == [
      TextField("freq", Some(r.freq)),
      IntField("ordinal", r.ordinal),
      TextField("weekday", r.weekday),
      UintField("interval", Some(r.interval)),
      UintField("day_of_month", r.dayOfMonth)];
    hide Lines, Total, Line, Ascii, Pair, Put, Count, IntField, IntItem, TextField, TextItem, UintField, UintItem,
        FreqName, OrdinalName, WeekdayName, IntervalName, DayOfMonthName, RecurrenceRuleFields;
    FreqBytes();
    TextLine("freq", FreqName(), Some(r.freq));
    OrdinalBytes();
    IntLine("ordinal", OrdinalName(), r.ordinal);
    WeekdayBytes();
    TextLine("weekday", WeekdayName(), r.weekday);
    IntervalBytes();
    UintLine("interval", IntervalName(), Some(r.interval));
    DayOfMonthBytes();
    UintLine("day_of_month", DayOfMonthName(), r.dayOfMonth);
  }

  lemma RecurrenceRuleWire(r: RecurrenceRule)
    ensures EncodeRecurrenceRule(r)
         == [0xa2 + Count(r.ordinal) + Count(r.weekday) + Count(r.dayOfMonth)]
            + (Pair(FreqName(), TextItem(r.freq))
               + Put(OrdinalName(), r.ordinal, IntItem)
               + Put(WeekdayName(), r.weekday, TextItem)
               + Pair(IntervalName(), UintItem(r.interval))
               + Put(DayOfMonthName(), r.dayOfMonth, UintItem))
  {
    RecurrenceRuleLines(r);
    hide Enc, Present, Lines, Total, Pair, Put, Count, RecurrenceRuleFields;
    MapBytes(RecurrenceRuleFields(r));
  }

  lemma LocationLines(l: Location)
    ensures Total(LocationFields(l)) == 6 + Count(l.latitude) + Count(l.longitude)
    ensures Lines(LocationFields(l))
         == Pair(NameName(), TextItem(l.name))
               + Pair(RegionName(), TextItem(l.region))
               + Pair(AddressName(), TextItem(l.address))
               + Pair(CountryName(), TextItem(l.country))
               + Put(LatitudeName(), l.latitude, FloatItem)
               + Pair(LocalityName(), TextItem(l.locality))
               + Put(LongitudeName(), l.longitude, FloatItem)
               + Pair(PostalCodeName(), TextItem(l.postalCode))
  {
    var fs := LocationFields(l);
    Lines8(
      TextField("name", Some(l.name)),
      TextField("region", Some(l.region)),
      TextField("address", Some(l.address)),
      TextField("country", Some(l.country)),
      FloatField("latitude", l.latitude),
      TextField("locality", Some(l.locality)),
      FloatField("longitude", l.longitude),
      TextField("postal_code", Some(l.postalCode)));
    assert fs == [
      TextField("name", Some(l.name)),
      TextField("region", Some(l.region)),
      TextField("address", Some(l.address)),
      TextField("country", Some(l.country)),
      FloatField("latitude", l.latitude),
      TextField("locality", Some(l.locality)),
      FloatField("longitude", l.longitude),
      TextField("postal_code", Some(l.postalCode))];
    hide Lines, Total, Line, Ascii, Pair, Put, Count, FloatField, FloatItem, TextField, TextItem, NameName,
        RegionName, AddressName, CountryName, LatitudeName, LocalityName, LongitudeName, PostalCodeName,
            LocationFields;
    NameBytes();
    TextLine("name", NameName(), Some(l.name));
    RegionBytes();
    TextLine("region", RegionName(), Some(l.region));
    AddressBytes();
    TextLine("address", AddressName(), Some(l.address));
    CountryBytes();
    TextLine("country", CountryName(), Some(l.country));
    LatitudeBytes();
    FloatLine("latitude", LatitudeName(), l.latitude);
    LocalityBytes();
    TextLine("locality", LocalityName(), Some(l.locality));
    LongitudeBytes();
    FloatLine("longitude", LongitudeName(), l.longitude);
    PostalCodeBytes();
    TextLine("postal_code", PostalCodeName(), Some(l.postalCode));
  }

  lemma LocationWire(l: Location)
    ensures EncodeLocation(l)
         == [0xa6 + Count(l.latitude) + Count(l.longitude)]
            + (Pair(NameName(), TextItem(l.name))
               + Pair(RegionName(), TextItem(l.region))
               + Pair(AddressName(), TextItem(l.address))
               + Pair(CountryName(), TextItem(l.country))
               + Put(LatitudeName(), l.latitude, FloatItem)
               + Pair(LocalityName(), TextItem(l.locality))
               + Put(LongitudeName(), l.longitude, FloatItem)
               + Pair(PostalCodeName(), TextItem(l.postalCode)))
  {
    LocationLines(l);
    hide Enc, Present, Lines, Total, Pair, Put, Count, LocationFields;
    MapBytes(LocationFields(l));
  }

  // The small records inside a gathering.

  lemma ViewerContextLines(c: ViewerContext)
    ensures Total(ViewerContextFields(c)) == 9
    ensures Lines(ViewerContextFields(c))
         == Pair(CanEditName(), BoolItem(c.canEdit))
               + Pair(IsAdminName(), BoolItem(c.isAdmin))
               + Pair(IsOwnerName(), BoolItem(c.isOwner))
               + Pair(IsMemberName(), BoolItem(c.isMember))
               + Pair(CanDeleteName(), BoolItem(c.canDelete))
               + Pair(HasJoinedName(), BoolItem(c.hasJoined))
               + Pair(IsOrganizerName(), BoolItem(c.isOrganizer))
               + Pair(IsPresenterName(), BoolItem(c.isPresenter))
               + Pair(CanManageMembersName(), BoolItem(c.canManageMembers))
  {
    var fs := ViewerContextFields(c);
    Lines9(
      BoolField("can_edit", c.canEdit),
      BoolField("is_admin", c.isAdmin),
      BoolField("is_owner", c.isOwner),
      BoolField("is_member", c.isMember),
      BoolField("can_delete", c.canDelete),
      BoolField("has_joined", c.hasJoined),
      BoolField("is_organizer", c.isOrganizer),
      BoolField("is_presenter", c.isPresenter),
      BoolField("can_manage_members", c.canManageMembers));
    assert fs == [
      BoolField("can_edit", c.canEdit),
      BoolField("is_admin", c.isAdmin),
      BoolField("is_owner", c.isOwner),
      BoolField("is_member", c.isMember),
      BoolField("can_delete", c.canDelete),
      BoolField("has_joined", c.hasJoined),
      BoolField("is_organizer", c.isOrganizer),
      BoolField("is_presenter", c.isPresenter),
      BoolField("can_manage_members", c.canManageMembers)];
    hide Lines, Total, Line, Ascii, Pair, Put, Count, BoolField, BoolItem, CanEditName, IsAdminName, IsOwnerName,
        IsMemberName, CanDeleteName, HasJoinedName, IsOrganizerName, IsPresenterName, CanManageMembersName,
            ViewerContextFields;
    CanEditBytes();
    BoolLine("can_edit", CanEditName(), c.canEdit);
    IsAdminBytes();
    BoolLine("is_admin", IsAdminName(), c.isAdmin);
    IsOwnerBytes();
    BoolLine("is_owner", IsOwnerName(), c.isOwner);
    IsMemberBytes();
    BoolLine("is_member", IsMemberName(), c.isMember);
    CanDeleteBytes();
    BoolLine("can_delete", CanDeleteName(), c.canDelete);
    HasJoinedBytes();
    BoolLine("has_joined", HasJoinedName(), c.hasJoined);
    IsOrganizerBytes();
    BoolLine("is_organizer", IsOrganizerName(), c.isOrganizer);
    IsPresenterBytes();
    BoolLine("is_presenter", IsPresenterName(), c.isPresenter);
    CanManageMembersBytes();
    BoolLine("can_manage_members", CanManageMembersName(), c.canManageMembers);
  }

  lemma ViewerContextWire(c: ViewerContext)
    ensures Enc(ViewerContextValue(c))
         == [0xa9]
            + (Pair(CanEditName(), BoolItem(c.canEdit))
               + Pair(IsAdminName(), BoolItem(c.isAdmin))
               + Pair(IsOwnerName(), BoolItem(c.isOwner))
               + Pair(IsMemberName(), BoolItem(c.isMember))
               + Pair(CanDeleteName(), BoolItem(c.canDelete))
               + Pair(HasJoinedName(), BoolItem(c.hasJoined))
               + Pair(IsOrganizerName(), BoolItem(c.isOrganizer))
               + Pair(IsPresenterName(), BoolItem(c.isPresenter))
               + Pair(CanManageMembersName(), BoolItem(c.canManageMembers)))
  {
    ViewerContextLines(c);
    hide Enc, Present, Lines, Total, Pair, Put, Count, ViewerContextFields;
    MapBytes(ViewerContextFields(c));
  }

  lemma PublishDecisionLines(d: PublishDecision)
    ensures Total(PublishDecisionFields(d)) == 3
    ensures Lines(PublishDecisionFields(d))
         == Pair(SourceName(), TextItem(d.source))
               + Pair(PublishingName(), BoolItem(d.publishing))
               + Pair(CanOverrideName(), BoolItem(d.canOverride))
  {
    var fs := PublishDecisionFields(d);
    Lines3(
      TextField("source", Some(d.source)),
      BoolField("publishing", d.publishing),
      BoolField("can_override", d.canOverride));
    assert fs == [
      TextField("source", Some(d.source)),
      BoolField("publishing", d.publishing),
      BoolField("can_override", d.canOverride)];
    hide Lines, Total, Line, Ascii, Pair, Put, Count, BoolField, BoolItem, TextField, TextItem, SourceName,
        PublishingName, CanOverrideName, PublishDecisionFields;
    SourceBytes();
    TextLine("source", SourceName(), Some(d.source));
    PublishingBytes();
    BoolLine("publishing", PublishingName(), d.publishing);
    CanOverrideBytes();
    BoolLine("can_override", CanOverrideName(), d.canOverride);
  }

  lemma PublishDecisionWire(d: PublishDecision)
    ensures Enc(PublishDecisionValue(d))
         == [0xa3]
            + (Pair(SourceName(), TextItem(d.source))
               + Pair(PublishingName(), BoolItem(d.publishing))
               + Pair(CanOverrideName(), BoolItem(d.canOverride)))
  {
    PublishDecisionLines(d);
    hide Enc, Present, Lines, Total, Pair, Put, Count, PublishDecisionFields;
    MapBytes(PublishDecisionFields(d));
  }

  lemma OriginLines(o: Origin)
    ensures Total(OriginFields(o)) == 2 + Count(o.peerAddress)
    ensures Lines(OriginFields(o))
         == Pair(DomainName(), TextItem(o.domain))
               + Pair(IsExternalName(), BoolItem(o.isExternal))
               + Put(PeerAddressName(), o.peerAddress, TextItem)
  {
    var fs := OriginFields(o);
    Lines3(
      TextField("domain", Some(o.domain)),
      BoolField("is_external", o.isExternal),
      TextField("peer_address", o.peerAddress));
    assert fs == [
      TextField("domain", Some(o.domain)),
      BoolField("is_external", o.isExternal),
      TextField("peer_address", o.peerAddress)];
    hide Lines, Total, Line, Ascii, Pair, Put, Count, BoolField, BoolItem, TextField, TextItem, DomainName,
        IsExternalName, PeerAddressName, OriginFields;
    DomainBytes();
    TextLine("domain", DomainName(), Some(o.domain));
    IsExternalBytes();
    BoolLine("is_external", IsExternalName(), o.isExternal);
    PeerAddressBytes();
    TextLine("peer_address", PeerAddressName(), o.peerAddress);
  }

  lemma OriginWire(o: Origin)
    ensures Enc(OriginValue(o))
         == [0xa2 + Count(o.peerAddress)]
            + (Pair(DomainName(), TextItem(o.domain))
               + Pair(IsExternalName(), BoolItem(o.isExternal))
               + Put(PeerAddressName(), o.peerAddress, TextItem))
  {
    OriginLines(o);
    hide Enc, Present, Lines, Total, Pair, Put, Count, OriginFields;
    MapBytes(OriginFields(o));
  }

  lemma OwnerRefLines(o: OwnerRef)
    ensures Total(OwnerRefFields(o)) == 5
    ensures Lines(OwnerRefFields(o))
         == Pair(IdName(), TextItem(o.id))
               + Pair(KindName(), TextItem(o.kind))
               + Pair(HandleName(), TextItem(o.handle))
               + Pair(DisplayNameName(), TextItem(o.displayName))
               + Pair(OriginDomainName(), TextItem(o.originDomain))
  {
    var fs := OwnerRefFields(o);
    Lines5(
      TextField("id", Some(o.id)),
      TextField("kind", Some(o.kind)),
      TextField("handle", Some(o.handle)),
      TextField("display_name", Some(o.displayName)),
      TextField("origin_domain", Some(o.originDomain)));
    assert fs == [
      TextField("id", Some(o.id)),
      TextField("kind", Some(o.kind)),
      TextField("handle", Some(o.handle)),
      TextField("display_name", Some(o.displayName)),
      TextField("origin_domain", Some(o.originDomain))];
    hide Lines, Total, Line, Ascii, Pair, Put, Count, TextField, TextItem, IdName, KindName, HandleName,
        DisplayNameName, OriginDomainName, OwnerRefFields;
    IdBytes();
    TextLine("id", IdName(), Some(o.id));
    KindBytes();
    TextLine("kind", KindName(), Some(o.kind));
    HandleBytes();
    TextLine("handle", HandleName(), Some(o.handle));
    DisplayNameBytes();
    TextLine("display_name", DisplayNameName(), Some(o.displayName));
    OriginDomainBytes();
    TextLine("origin_domain", OriginDomainName(), Some(o.originDomain));
  }

  lemma OwnerRefWire(o: OwnerRef)
    ensures Enc(OwnerRefValue(o))
         == [0xa5]
            + (Pair(IdName(), TextItem(o.id))
               + Pair(KindName(), TextItem(o.kind))
               + Pair(HandleName(), TextItem(o.handle))
               + Pair(DisplayNameName(), TextItem(o.displayName))
               + Pair(OriginDomainName(), TextItem(o.originDomain)))
  {
    OwnerRefLines(o);
    hide Enc, Present, Lines, Total, Pair, Put, Count, OwnerRefFields;
    MapBytes(OwnerRefFields(o));
  }

  // The gathering list.

  /** A timestamp: tag 0, then its text. */
  function TimeItem(rt: Runtime, t: int): seq<Byte> {
    [0xc0] + TextItem(rt.formatTime(t))
  }

  lemma TimeBytes(rt: Runtime, t: int)
    ensures Enc(EncTimestamp(rt, t)) == TimeItem(rt, t)
  {
    var text := Text(rt.formatTime(t));
    assert Kids(EncTimestamp(rt, t)) == [text] && Head(6, 0) == [0xc0];
    LeafItems(0, 0, rt.formatTime(t), false);
    EncAllSingle(text);
    hide EncAll, TextItem;
  }

  /** The items of a list one after the other. */
  function Each<E>(xs: seq<E>, item: E -> seq<Byte>): seq<Byte> {
    if xs == [] then [] else Each(xs[..|xs| - 1], item) + item(xs[|xs| - 1])
  }

  lemma {:induction false} EachBytes<E>(xs: seq<E>, f: E -> Value, item: E -> seq<Byte>)
    requires forall x | x in xs :: Enc(f(x)) == item(x)
    ensures EncAll(WriteAll(xs, f)) == Each(xs, item)
  {
    if xs == [] {
      assert EncAll([]) == [];
    } else {
      var front, last := xs[..|xs| - 1], xs[|xs| - 1];
      assert last in xs && forall x | x in front :: x in xs;
      hide Enc, EncAll;
      EachBytes(front, f, item);
      EncAllAppend(WriteAll(front, f), [f(last)]);
      EncAllSingle(f(last));
    }
  }

  lemma ListItem<E>(xs: seq<E>, f: E -> Value, item: E -> seq<Byte>)
    requires forall x | x in xs :: Enc(f(x)) == item(x)
    ensures Enc(Array(WriteAll(xs, f))) == Head(4, |xs|) + Each(xs, item)
  {
    hide Enc, EncAll, Head, WriteAll;
    EachBytes(xs, f, item);
    ArrayItem(WriteAll(xs, f));
  }

  lemma ValueLine(key: string, name: seq<Byte>, v: Option<Value>)
    requires Ascii(key) == name
    ensures Line(Field(Ascii(key), v)) == if v.Some? then Pair(name, Enc(v.value)) else []
  {
    LeafItems(0, 0, name, false);
    hide Enc, Ascii, TextItem;
  }

  lemma LinesLast(fs: seq<Field>)
    requires fs != []
    ensures Lines(fs) == Lines(fs[..|fs| - 1]) + Line(fs[|fs| - 1])
    ensures Total(fs) == Total(fs[..|fs| - 1]) + Count(fs[|fs| - 1].value)
  {
    hide Line, Count;
  }

  lemma Joined(a: seq<Byte>, b: seq<Byte>, c: seq<Byte>)
    ensures a + b + c == a + (b + c)
  {
  }

  lemma {:induction false} LinesAppend(fs: seq<Field>, gs: seq<Field>)
    ensures Lines(fs + gs) == Lines(fs) + Lines(gs) && Total(fs + gs) == Total(fs) + Total(gs)
  {
    if gs == [] {
      assert fs + gs == fs;
    } else {
      var front, last := gs[..|gs| - 1], gs[|gs| - 1];
      LinesAppend(fs, front);
      LinesLast(gs);
      LinesLast(fs + gs);
      hide *;
      assert (fs + gs)[..|fs + gs| - 1] == fs + front && (fs + gs)[|fs + gs| - 1] == last;
      Joined(Lines(fs), Lines(front), Line(last));
    }
  }

  /** One owner, whose bytes OwnerRefWire gives. */
  function OwnerRefItem(o: OwnerRef): seq<Byte> {
    Enc(OwnerRefValue(o))
  }

  lemma GatheringLinesLow(rt: Runtime, g: Gathering)
    ensures Total(GatheringFields(rt, g)[..8]) == 8
    ensures Lines(GatheringFields(rt, g)[..8])
         == Pair(IdName(), TextItem(g.id))
          + Pair(NameName(), TextItem(g.name))
          + Pair(SlugName(), TextItem(g.slug))
          + Pair(BlurbName(), TextItem(g.blurb))
          + Pair(OriginName(), Enc(OriginValue(g.origin)))
          + Pair(OwnersName(), Head(4, |g.owners|) + Each(g.owners, OwnerRefItem))
          + Pair(ViewerName(), Enc(ViewerContextValue(g.viewer)))
          + Pair(PublishName(), Enc(PublishDecisionValue(g.publish)))
  {
    GatheringFieldList(rt, g);
    var fs := GatheringFields(rt, g);
    ListItem(g.owners, OwnerRefValue, OwnerRefItem);
    hide Lines, Total, Line, Ascii, Pair, Enc, Head, Each, TimeItem, EncTimestamp, WriteAll, TextField, UintField,
        TextItem, UintItem, OriginValue, ViewerContextValue, PublishDecisionValue, OwnerRefItem, GatheringFields,
            IdName, NameName, SlugName, BlurbName, OriginName, OwnersName, ViewerName, PublishName;
    assert fs[..8] == [fs[0], fs[1], fs[2], fs[3], fs[4], fs[5], fs[6], fs[7]];
    Lines8(fs[0], fs[1], fs[2], fs[3], fs[4], fs[5], fs[6], fs[7]);
    IdBytes();
    TextLine("id", IdName(), Some(g.id));
    NameBytes();
    TextLine("name", NameName(), Some(g.name));
    SlugBytes();
    TextLine("slug", SlugName(), Some(g.slug));
    BlurbBytes();
    TextLine("blurb", BlurbName(), Some(g.blurb));
    OriginBytes();
    ValueLine("origin", OriginName(), Some(OriginValue(g.origin)));
    OwnersBytes();
    ValueLine("owners", OwnersName(), Some(Array(WriteAll(g.owners, OwnerRefValue))));
    ViewerBytes();
    ValueLine("viewer", ViewerName(), Some(ViewerContextValue(g.viewer)));
    PublishBytes();
    ValueLine("publish", PublishName(), Some(PublishDecisionValue(g.publish)));
  }

  lemma GatheringLinesHigh(rt: Runtime, g: Gathering)
    ensures Total(GatheringFields(rt, g)[8..]) == 7 + Count(g.nextEventAt)
    ensures Lines(GatheringFields(rt, g)[8..])
         == Pair(CreatedAtName(), TimeItem(rt, g.createdAt))
          + Pair(UpdatedAtName(), TimeItem(rt, g.updatedAt))
          + Pair(DescriptionName(), TextItem(g.description))
          + Pair(EventCountName(), UintItem(g.eventCount))
          + Pair(MemberCountName(), UintItem(g.memberCount))
          + (if g.nextEventAt.Some? then Pair(NextEventAtName(), TimeItem(rt, g.nextEventAt.value)) else [])
          + Pair(OriginDomainName(), TextItem(g.originDomain))
          + Pair(PublishEventsName(), TextItem(g.publishEvents))
  {
    GatheringFieldList(rt, g);
    var fs := GatheringFields(rt, g);
    hide Lines, Total, Line, Ascii, Pair, Enc, Head, Each, TimeItem, EncTimestamp, WriteAll, TextField, UintField,
        TextItem, UintItem, OriginValue, ViewerContextValue, PublishDecisionValue, OwnerRefItem, GatheringFields,
            CreatedAtName, UpdatedAtName, DescriptionName, EventCountName, MemberCountName, NextEventAtName,
                OriginDomainName, PublishEventsName;
    assert fs[8..] == [fs[8], fs[9], fs[10], fs[11], fs[12], fs[13], fs[14], fs[15]];
    Lines8(fs[8], fs[9], fs[10], fs[11], fs[12], fs[13], fs[14], fs[15]);
    CreatedAtBytes();
    ValueLine("created_at", CreatedAtName(), Some(EncTimestamp(rt, g.createdAt)));
    TimeBytes(rt, g.createdAt);
    UpdatedAtBytes();
    ValueLine("updated_at", UpdatedAtName(), Some(EncTimestamp(rt, g.updatedAt)));
    TimeBytes(rt, g.updatedAt);
    DescriptionBytes();
    TextLine("description", DescriptionName(), Some(g.description));
    EventCountBytes();
    UintLine("event_count", EventCountName(), Some(g.eventCount));
    MemberCountBytes();
    UintLine("member_count", MemberCountName(), Some(g.memberCount));
    NextEventAtBytes();
    ValueLine("next_event_at", NextEventAtName(), if g.nextEventAt.Some? then Some(EncTimestamp(rt,
        g.nextEventAt.value)) else None);
    if g.nextEventAt.Some? {
      TimeBytes(rt, g.nextEventAt.value);
    }
    OriginDomainBytes();
    TextLine("origin_domain", OriginDomainName(), Some(g.originDomain));
    PublishEventsBytes();
    TextLine("publish_events", PublishEventsName(), Some(g.publishEvents));
  }

  lemma GatheringWire(rt: Runtime, g: Gathering)
    ensures Enc(GatheringValue(rt, g))
         == [0xaf + Count(g.nextEventAt)]
            + (Pair(IdName(), TextItem(g.id))
               + Pair(NameName(), TextItem(g.name))
               + Pair(SlugName(), TextItem(g.slug))
               + Pair(BlurbName(), TextItem(g.blurb))
               + Pair(OriginName(), Enc(OriginValue(g.origin)))
               + Pair(OwnersName(), Head(4, |g.owners|) + Each(g.owners, OwnerRefItem))
               + Pair(ViewerName(), Enc(ViewerContextValue(g.viewer)))
               + Pair(PublishName(), Enc(PublishDecisionValue(g.publish))))
            + (Pair(CreatedAtName(), TimeItem(rt, g.createdAt))
               + Pair(UpdatedAtName(), TimeItem(rt, g.updatedAt))
               + Pair(DescriptionName(), TextItem(g.description))
               + Pair(EventCountName(), UintItem(g.eventCount))
               + Pair(MemberCountName(), UintItem(g.memberCount))
               + (if g.nextEventAt.Some? then Pair(NextEventAtName(), TimeItem(rt, g.nextEventAt.value)) else [])
               + Pair(OriginDomainName(), TextItem(g.originDomain))
               + Pair(PublishEventsName(), TextItem(g.publishEvents)))
  {
    GatheringLinesLow(rt, g);
    GatheringLinesHigh(rt, g);
    hide Lines, Total, Pair, Enc, Head, Each, TimeItem, TextItem, UintItem, GatheringFields, Present, Count,
        OwnerRefItem;
    var fs := GatheringFields(rt, g);
    assert fs == fs[..8] + fs[8..];
    LinesAppend(fs[..8], fs[8..]);
    MapBytes(fs);
    Joined([0xaf + Count(g.nextEventAt)], Lines(fs[..8]), Lines(fs[8..]));
  }

  lemma GatheringListWire(rt: Runtime, l: GatheringList)
    ensures EncodeGatheringList(rt, l)
         == [0xa2] + (Pair(TotalName(), UintItem(l.total))
                      + Pair(GatheringsName(), Head(4, |l.gatherings|)
                             + Each(l.gatherings, (x: Gathering) => Enc(GatheringValue(rt, x)))))
  {
    GatheringListFieldList(rt, l);
    var fs := GatheringListFields(rt, l);
    hide Enc, Present, Lines, Total, Line, Ascii, Pair, Head, Each, UintField, UintItem, WriteAll, GatheringValue,
      GatheringListFields, TotalName, GatheringsName;
    var f, item := (x: Gathering) => GatheringValue(rt, x), (x: Gathering) => Enc(GatheringValue(rt, x));
    ListItem(l.gatherings, f, item);
    assert fs == [fs[0], fs[1]];
    Lines2(fs[0], fs[1]);
    TotalBytes();
    UintLine("total", TotalName(), Some(l.total));
    GatheringsBytes();
    ValueLine("gatherings", GatheringsName(), Some(Array(WriteAll(l.gatherings, f))));
    MapBytes(fs);
  }
}
