/** The decoders of flat records: which maps they read as which record, and which error they report for the
    others, field by field in the order the schema declares. */
module RecordReaders {
  import opened Machine
  import opened CborTree
  import opened Fields
  import opened Names
  import opened Vocabulary
  import opened Schema
  import opened Records

  // Page.

  /** The schema of a Page, in the order its fields are read. */
  function PageForm(): Form {
    RecordForm([
      Demand(LimitName(), false, UintForm),
      Demand(OffsetName(), false, UintForm)
    ])
  }

  lemma PageOrder(root: Value, e: Error)
    ensures PageOf(root) == Err(e) <==> FirstOf([
      Why(Optional(MapGet(root, Ascii("limit")), AsU64)),
      Why(Optional(MapGet(root, Ascii("offset")), AsU64))]) == Some(e)
  {
    First2(
      Why(Optional(MapGet(root, Ascii("limit")), AsU64)),
      Why(Optional(MapGet(root, Ascii("offset")), AsU64)));
    hide MapGet, Require, Ascii, FirstOf, AsU64;
  }

  lemma PageSettles(root: Value)
    ensures AllSettle(PageForm().demands, root, [
      Why(Optional(MapGet(root, Ascii("limit")), AsU64)),
      Why(Optional(MapGet(root, Ascii("offset")), AsU64))])
  {
    var ds := PageForm().demands;
    ScalarsJudge();
    LimitBytes();
    OffsetBytes();
    hide MapGet, RequiredRead, Optional, Ascii, Judges, Settles, Why, AsU64, LimitName, OffsetName;
    OptionalFault(LimitName(), UintForm, root, AsU64);
    OptionalFault(OffsetName(), UintForm, root, AsU64);
  }

  lemma PageFault(root: Value, e: Error)
    ensures PageOf(root) == Err(e) <==> Fault(PageForm(), root, e)
  {
    assert PageForm().RecordForm?;
    hide *;
    PageSettles(root);
    PageOrder(root, e);
    Refusal(PageForm(), [
      Why(Optional(MapGet(root, Ascii("limit")), AsU64)),
      Why(Optional(MapGet(root, Ascii("offset")), AsU64))], root, e);
  }

  lemma PageFaults(root: Value)
    ensures forall e :: PageOf(root) == Err(e) <==> Fault(PageForm(), root, e)
  {
    hide Fault, PageOf, PageForm;
    forall e
      ensures PageOf(root) == Err(e) <==> Fault(PageForm(), root, e)
    {
      PageFault(root, e);
    }
  }

  method CsilDecPage(root: Value) returns (r: Result<Page>)
    ensures r == PageOf(root)
    ensures forall p :: r == Ok(p) <==> HoldsAlike(root, PageFields(p))
    ensures forall e :: r == Err(e) <==> Fault(PageForm(), root, e)
  {
    PageFaults(root);
    forall p
      ensures PageOf(root) == Ok(p) <==> HoldsAlike(root, PageFields(p))
    {
      PageExact(p, root);
    }
    hide MapGet, Ascii, Fault, PageForm;
    var out := Page(None, None);
    var limitField := MapGet(root, Ascii("limit"));
    if limitField.Some? {
      var val := AsU64(limitField.value);
      if val.Err? {
        return Err(val.error);
      }
      out := out.(limit := Some(val.value));
    }
    var offsetField := MapGet(root, Ascii("offset"));
    if offsetField.Some? {
      var val := AsU64(offsetField.value);
      if val.Err? {
        return Err(val.error);
      }
      out := out.(offset := Some(val.value));
    }
    r := Ok(out);
  }

  // ServiceError.

  /** The schema of a ServiceError, in the order its fields are read. */
  function ServiceErrorForm(): Form {
    RecordForm([
      Demand(CodeName(), true, UintForm),
      Demand(MessageName(), true, TextForm),
      Demand(FieldName(), false, TextForm),
      Demand(ResourceTypeName(), false, TextForm)
    ])
  }

  lemma ServiceErrorOrder(root: Value, e: Error)
    ensures ServiceErrorOf(root) == Err(e) <==> FirstOf([
      Why(RequiredRead(root, Ascii("code"), AsU64)),
      Why(RequiredRead(root, Ascii("message"), AsText)),
      Why(Optional(MapGet(root, Ascii("field")), AsText)),
      Why(Optional(MapGet(root, Ascii("resource_type")), AsText))]) == Some(e)
  {
    First4(
      Why(RequiredRead(root, Ascii("code"), AsU64)),
      Why(RequiredRead(root, Ascii("message"), AsText)),
      Why(Optional(MapGet(root, Ascii("field")), AsText)),
      Why(Optional(MapGet(root, Ascii("resource_type")), AsText)));
    hide MapGet, Require, Ascii, FirstOf, AsText, AsU64;
  }

  lemma ServiceErrorSettles(root: Value)
    ensures AllSettle(ServiceErrorForm().demands, root, [
      Why(RequiredRead(root, Ascii("code"), AsU64)),
      Why(RequiredRead(root, Ascii("message"), AsText)),
      Why(Optional(MapGet(root, Ascii("field")), AsText)),
      Why(Optional(MapGet(root, Ascii("resource_type")), AsText))])
  {
    var ds := ServiceErrorForm().demands;
    ScalarsJudge();
    CodeBytes();
    MessageBytes();
    FieldBytes();
    ResourceTypeBytes();
    hide MapGet, RequiredRead, Optional, Ascii, Judges, Settles, Why, AsText, AsU64, CodeName, MessageName,
        FieldName, ResourceTypeName;
    RequiredFault(CodeName(), UintForm, root, AsU64);
    RequiredFault(MessageName(), TextForm, root, AsText);
    OptionalFault(FieldName(), TextForm, root, AsText);
    OptionalFault(ResourceTypeName(), TextForm, root, AsText);
  }

  lemma ServiceErrorFault(root: Value, e: Error)
    ensures ServiceErrorOf(root) == Err(e) <==> Fault(ServiceErrorForm(), root, e)
  {
    assert ServiceErrorForm().RecordForm?;
    hide *;
    ServiceErrorSettles(root);
    ServiceErrorOrder(root, e);
    Refusal(ServiceErrorForm(), [
      Why(RequiredRead(root, Ascii("code"), AsU64)),
      Why(RequiredRead(root, Ascii("message"), AsText)),
      Why(Optional(MapGet(root, Ascii("field")), AsText)),
      Why(Optional(MapGet(root, Ascii("resource_type")), AsText))], root, e);
  }

  lemma ServiceErrorFaults(root: Value)
    ensures forall e :: ServiceErrorOf(root) == Err(e) <==> Fault(ServiceErrorForm(), root, e)
  {
    hide Fault, ServiceErrorOf, ServiceErrorForm;
    forall e
      ensures ServiceErrorOf(root) == Err(e) <==> Fault(ServiceErrorForm(), root, e)
    {
      ServiceErrorFault(root, e);
    }
  }

  method CsilDecServiceError(root: Value) returns (r: Result<ServiceError>)
    ensures r == ServiceErrorOf(root)
    ensures forall e :: r == Ok(e) <==> HoldsAlike(root, ServiceErrorFields(e))
    ensures forall e :: r == Err(e) <==> Fault(ServiceErrorForm(), root, e)
  {
    ServiceErrorFaults(root);
    forall e
      ensures ServiceErrorOf(root) == Ok(e) <==> HoldsAlike(root, ServiceErrorFields(e))
    {
      ServiceErrorExact(e, root);
    }
    hide MapGet, Ascii, Fault, ServiceErrorForm;
    var out := ServiceError(0, [], None, None);
    var codeField := Require(root, Ascii("code"));
    if codeField.Err? {
      return Err(codeField.error);
    }
    var code := AsU64(codeField.value);
    if code.Err? {
      return Err(code.error);
    }
    out := out.(code := code.value);
    var messageField := Require(root, Ascii("message"));
    if messageField.Err? {
      return Err(messageField.error);
    }
    var message := AsText(messageField.value);
    if message.Err? {
      return Err(message.error);
    }
    out := out.(message := message.value);
    var fieldField := MapGet(root, Ascii("field"));
    if fieldField.Some? {
      var val := AsText(fieldField.value);
      if val.Err? {
        return Err(val.error);
      }
      out := out.(field := Some(val.value));
    }
    var resourceTypeField := MapGet(root, Ascii("resource_type"));
    if resourceTypeField.Some? {
      var val := AsText(resourceTypeField.value);
      if val.Err? {
        return Err(val.error);
      }
      out := out.(resourceType := Some(val.value));
    }
    r := Ok(out);
  }

  // SignedDelivery.

  /** The schema of a SignedDelivery, in the order its fields are read. */
  function SignedDeliveryForm(): Form {
    RecordForm([
      Demand(SenderAddressName(), true, TextForm),
      Demand(AlgorithmName(), true, TextForm),
      Demand(KeyIdName(), true, TextForm),
      Demand(SignatureName(), true, TextForm),
      Demand(BodyName(), true, BytesForm)
    ])
  }

  lemma SignedDeliveryOrder(root: Value, e: Error)
    ensures SignedDeliveryOf(root) == Err(e) <==> FirstOf([
      Why(RequiredRead(root, Ascii("sender_address"), AsText)),
      Why(RequiredRead(root, Ascii("algorithm"), AsText)),
      Why(RequiredRead(root, Ascii("key_id"), AsText)),
      Why(RequiredRead(root, Ascii("signature"), AsText)),
      Why(RequiredRead(root, Ascii("body"), AsBytes))]) == Some(e)
  {
    First5(
      Why(RequiredRead(root, Ascii("sender_address"), AsText)),
      Why(RequiredRead(root, Ascii("algorithm"), AsText)),
      Why(RequiredRead(root, Ascii("key_id"), AsText)),
      Why(RequiredRead(root, Ascii("signature"), AsText)),
      Why(RequiredRead(root, Ascii("body"), AsBytes)));
    hide MapGet, Require, Ascii, FirstOf, AsBytes, AsText;
  }

  lemma SignedDeliverySettles(root: Value)
    ensures AllSettle(SignedDeliveryForm().demands, root, [
      Why(RequiredRead(root, Ascii("sender_address"), AsText)),
      Why(RequiredRead(root, Ascii("algorithm"), AsText)),
      Why(RequiredRead(root, Ascii("key_id"), AsText)),
      Why(RequiredRead(root, Ascii("signature"), AsText)),
      Why(RequiredRead(root, Ascii("body"), AsBytes))])
  {
    var ds := SignedDeliveryForm().demands;
    ScalarsJudge();
    SenderAddressBytes();
    AlgorithmBytes();
    KeyIdBytes();
    SignatureBytes();
    BodyBytes();
    hide MapGet, RequiredRead, Optional, Ascii, Judges, Settles, Why, AsBytes, AsText, SenderAddressName,
        AlgorithmName, KeyIdName, SignatureName, BodyName;
    RequiredFault(SenderAddressName(), TextForm, root, AsText);
    RequiredFault(AlgorithmName(), TextForm, root, AsText);
    RequiredFault(KeyIdName(), TextForm, root, AsText);
    RequiredFault(SignatureName(), TextForm, root, AsText);
    RequiredFault(BodyName(), BytesForm, root, AsBytes);
  }

  lemma SignedDeliveryFault(root: Value, e: Error)
    ensures SignedDeliveryOf(root) == Err(e) <==> Fault(SignedDeliveryForm(), root, e)
  {
    assert SignedDeliveryForm().RecordForm?;
    hide *;
    SignedDeliverySettles(root);
    SignedDeliveryOrder(root, e);
    Refusal(SignedDeliveryForm(), [
      Why(RequiredRead(root, Ascii("sender_address"), AsText)),
      Why(RequiredRead(root, Ascii("algorithm"), AsText)),
      Why(RequiredRead(root, Ascii("key_id"), AsText)),
      Why(RequiredRead(root, Ascii("signature"), AsText)),
      Why(RequiredRead(root, Ascii("body"), AsBytes))], root, e);
  }

  lemma SignedDeliveryFaults(root: Value)
    ensures forall e :: SignedDeliveryOf(root) == Err(e) <==> Fault(SignedDeliveryForm(), root, e)
  {
    hide Fault, SignedDeliveryOf, SignedDeliveryForm;
    forall e
      ensures SignedDeliveryOf(root) == Err(e) <==> Fault(SignedDeliveryForm(), root, e)
    {
      SignedDeliveryFault(root, e);
    }
  }

  method CsilDecSignedDelivery(root: Value) returns (r: Result<SignedDelivery>)
    ensures r == SignedDeliveryOf(root)
    ensures forall d :: r == Ok(d) <==> HoldsAlike(root, SignedDeliveryFields(d))
    ensures forall e :: r == Err(e) <==> Fault(SignedDeliveryForm(), root, e)
  {
    SignedDeliveryFaults(root);
    forall d
      ensures SignedDeliveryOf(root) == Ok(d) <==> HoldsAlike(root, SignedDeliveryFields(d))
    {
      SignedDeliveryExact(d, root);
    }
    hide MapGet, Ascii, Fault, SignedDeliveryForm;
    var out := SignedDelivery([], [], [], [], []);
    var senderAddressField := Require(root, Ascii("sender_address"));
    if senderAddressField.Err? {
      return Err(senderAddressField.error);
    }
    var senderAddress := AsText(senderAddressField.value);
    if senderAddress.Err? {
      return Err(senderAddress.error);
    }
    out := out.(senderAddress := senderAddress.value);
    var algorithmField := Require(root, Ascii("algorithm"));
    if algorithmField.Err? {
      return Err(algorithmField.error);
    }
    var algorithm := AsText(algorithmField.value);
    if algorithm.Err? {
      return Err(algorithm.error);
    }
    out := out.(algorithm := algorithm.value);
    var keyIdField := Require(root, Ascii("key_id"));
    if keyIdField.Err? {
      return Err(keyIdField.error);
    }
    var keyId := AsText(keyIdField.value);
    if keyId.Err? {
      return Err(keyId.error);
    }
    out := out.(keyId := keyId.value);
    var signatureField := Require(root, Ascii("signature"));
    if signatureField.Err? {
      return Err(signatureField.error);
    }
    var signature := AsText(signatureField.value);
    if signature.Err? {
      return Err(signature.error);
    }
    out := out.(signature := signature.value);
    var bodyField := Require(root, Ascii("body"));
    if bodyField.Err? {
      return Err(bodyField.error);
    }
    var body := AsBytes(bodyField.value);
    if body.Err? {
      return Err(body.error);
    }
    out := out.(body := body.value);
    r := Ok(out);
  }

  // RecurrenceRule.

  /** The schema of a RecurrenceRule, in the order its fields are read. */
  function RecurrenceRuleForm(): Form {
    RecordForm([
      Demand(FreqName(), true, WordForm({WeeklyWord(), MonthlyWord(), QuarterlyWord(), YearlyWord()})),
      Demand(IntervalName(), true, UintForm),
      Demand(WeekdayName(), false, WordForm({MondayWord(), TuesdayWord(), WednesdayWord(), ThursdayWord(),
          FridayWord(), SaturdayWord(), SundayWord()})),
      Demand(OrdinalName(), false, IntForm),
      Demand(DayOfMonthName(), false, UintForm)
    ])
  }

  lemma RecurrenceRuleOrder(root: Value, e: Error)
    ensures RecurrenceRuleOf(root) == Err(e) <==> FirstOf([
      Why(RequiredRead(root, Ascii("freq"), AsFrequency)),
      Why(RequiredRead(root, Ascii("interval"), AsU64)),
      Why(Optional(MapGet(root, Ascii("weekday")), AsWeekday)),
      Why(Optional(MapGet(root, Ascii("ordinal")), AsI64)),
      Why(Optional(MapGet(root, Ascii("day_of_month")), AsU64))]) == Some(e)
  {
    First5(
      Why(RequiredRead(root, Ascii("freq"), AsFrequency)),
      Why(RequiredRead(root, Ascii("interval"), AsU64)),
      Why(Optional(MapGet(root, Ascii("weekday")), AsWeekday)),
      Why(Optional(MapGet(root, Ascii("ordinal")), AsI64)),
      Why(Optional(MapGet(root, Ascii("day_of_month")), AsU64)));
    hide MapGet, Require, Ascii, FirstOf, AsI64, AsText, AsU64, AsMember, Frequencies, Weekdays;
  }

  lemma RecurrenceRuleSettles(root: Value)
    ensures AllSettle(RecurrenceRuleForm().demands, root, [
      Why(RequiredRead(root, Ascii("freq"), AsFrequency)),
      Why(RequiredRead(root, Ascii("interval"), AsU64)),
      Why(Optional(MapGet(root, Ascii("weekday")), AsWeekday)),
      Why(Optional(MapGet(root, Ascii("ordinal")), AsI64)),
      Why(Optional(MapGet(root, Ascii("day_of_month")), AsU64))])
  {
    var ds := RecurrenceRuleForm().demands;
    ScalarsJudge();
    FrequenciesListed();
    WordsJudge(Frequencies(), AsFrequency);
    WeekdaysListed();
    WordsJudge(Weekdays(), AsWeekday);
    FreqBytes();
    IntervalBytes();
    WeekdayBytes();
    OrdinalBytes();
    DayOfMonthBytes();
    hide MapGet, RequiredRead, Optional, Ascii, Judges, Settles, Why, AsI64, AsText, AsU64, AsMember, Frequencies,
        Weekdays, FreqName, IntervalName, WeekdayName, OrdinalName, DayOfMonthName, WeeklyWord, MonthlyWord,
            QuarterlyWord, YearlyWord, MondayWord, TuesdayWord, WednesdayWord, ThursdayWord, FridayWord,
                SaturdayWord, SundayWord;
    RequiredFault(FreqName(), WordForm({WeeklyWord(), MonthlyWord(), QuarterlyWord(), YearlyWord()}), root,
        AsFrequency);
    RequiredFault(IntervalName(), UintForm, root, AsU64);
    OptionalFault(WeekdayName(), WordForm({MondayWord(), TuesdayWord(), WednesdayWord(), ThursdayWord(),
        FridayWord(), SaturdayWord(), SundayWord()}), root, AsWeekday);
    OptionalFault(OrdinalName(), IntForm, root, AsI64);
    OptionalFault(DayOfMonthName(), UintForm, root, AsU64);
  }

  lemma RecurrenceRuleFault(root: Value, e: Error)
    ensures RecurrenceRuleOf(root) == Err(e) <==> Fault(RecurrenceRuleForm(), root, e)
  {
    assert RecurrenceRuleForm().RecordForm?;
    hide *;
    RecurrenceRuleSettles(root);
    RecurrenceRuleOrder(root, e);
    Refusal(RecurrenceRuleForm(), [
      Why(RequiredRead(root, Ascii("freq"), AsFrequency)),
      Why(RequiredRead(root, Ascii("interval"), AsU64)),
      Why(Optional(MapGet(root, Ascii("weekday")), AsWeekday)),
      Why(Optional(MapGet(root, Ascii("ordinal")), AsI64)),
      Why(Optional(MapGet(root, Ascii("day_of_month")), AsU64))], root, e);
  }

  lemma RecurrenceRuleFaults(root: Value)
    ensures forall e :: RecurrenceRuleOf(root) == Err(e) <==> Fault(RecurrenceRuleForm(), root, e)
  {
    hide Fault, RecurrenceRuleOf, RecurrenceRuleForm;
    forall e
      ensures RecurrenceRuleOf(root) == Err(e) <==> Fault(RecurrenceRuleForm(), root, e)
    {
      RecurrenceRuleFault(root, e);
    }
  }

  method CsilDecRecurrenceRule(root: Value) returns (r: Result<RecurrenceRule>)
    ensures r == RecurrenceRuleOf(root)
    ensures forall x :: r == Ok(x) <==> HoldsAlike(root, RecurrenceRuleFields(x)) && RecurrenceRuleDeclared(x)
    ensures forall e :: r == Err(e) <==> Fault(RecurrenceRuleForm(), root, e)
  {
    RecurrenceRuleFaults(root);
    forall x
      ensures RecurrenceRuleOf(root) == Ok(x)
          <==> HoldsAlike(root, RecurrenceRuleFields(x)) && RecurrenceRuleDeclared(x)
    {
      RecurrenceRuleExact(x, root);
    }
    hide MapGet, Ascii, Fault, RecurrenceRuleForm;
    var out := RecurrenceRule([], 0, None, None, None);
    var freqField := Require(root, Ascii("freq"));
    if freqField.Err? {
      return Err(freqField.error);
    }
    var freq := AsMember(freqField.value, Frequencies());
    if freq.Err? {
      return Err(freq.error);
    }
    out := out.(freq := freq.value);
    var intervalField := Require(root, Ascii("interval"));
    if intervalField.Err? {
      return Err(intervalField.error);
    }
    var interval := AsU64(intervalField.value);
    if interval.Err? {
      return Err(interval.error);
    }
    out := out.(interval := interval.value);
    var weekdayField := MapGet(root, Ascii("weekday"));
    if weekdayField.Some? {
      var val := AsMember(weekdayField.value, Weekdays());
      if val.Err? {
        return Err(val.error);
      }
      out := out.(weekday := Some(val.value));
    }
    var ordinalField := MapGet(root, Ascii("ordinal"));
    if ordinalField.Some? {
      var val := AsI64(ordinalField.value);
      if val.Err? {
        return Err(val.error);
      }
      out := out.(ordinal := Some(val.value));
    }
    var dayOfMonthField := MapGet(root, Ascii("day_of_month"));
    if dayOfMonthField.Some? {
      var val := AsU64(dayOfMonthField.value);
      if val.Err? {
        return Err(val.error);
      }
      out := out.(dayOfMonth := Some(val.value));
    }
    r := Ok(out);
  }

  // Location.

  /** The schema of a Location, in the order its fields are read. */
  function LocationForm(): Form {
    RecordForm([
      Demand(NameName(), true, TextForm),
      Demand(AddressName(), true, TextForm),
      Demand(LocalityName(), true, TextForm),
      Demand(RegionName(), true, TextForm),
      Demand(PostalCodeName(), true, TextForm),
      Demand(CountryName(), true, TextForm),
      Demand(LatitudeName(), false, FloatForm),
      Demand(LongitudeName(), false, FloatForm)
    ])
  }

  lemma LocationOrder(root: Value, e: Error)
    ensures LocationOf(root) == Err(e) <==> FirstOf([
      Why(RequiredRead(root, Ascii("name"), AsText)),
      Why(RequiredRead(root, Ascii("address"), AsText)),
      Why(RequiredRead(root, Ascii("locality"), AsText)),
      Why(RequiredRead(root, Ascii("region"), AsText)),
      Why(RequiredRead(root, Ascii("postal_code"), AsText)),
      Why(RequiredRead(root, Ascii("country"), AsText)),
      Why(Optional(MapGet(root, Ascii("latitude")), AsF64)),
      Why(Optional(MapGet(root, Ascii("longitude")), AsF64))]) == Some(e)
  {
    First8(
      Why(RequiredRead(root, Ascii("name"), AsText)),
      Why(RequiredRead(root, Ascii("address"), AsText)),
      Why(RequiredRead(root, Ascii("locality"), AsText)),
      Why(RequiredRead(root, Ascii("region"), AsText)),
      Why(RequiredRead(root, Ascii("postal_code"), AsText)),
      Why(RequiredRead(root, Ascii("country"), AsText)),
      Why(Optional(MapGet(root, Ascii("latitude")), AsF64)),
      Why(Optional(MapGet(root, Ascii("longitude")), AsF64)));
    hide MapGet, Require, Ascii, FirstOf, AsF64, AsText;
  }

  lemma LocationSettles(root: Value)
    ensures AllSettle(LocationForm().demands, root, [
      Why(RequiredRead(root, Ascii("name"), AsText)),
      Why(RequiredRead(root, Ascii("address"), AsText)),
      Why(RequiredRead(root, Ascii("locality"), AsText)),
      Why(RequiredRead(root, Ascii("region"), AsText)),
      Why(RequiredRead(root, Ascii("postal_code"), AsText)),
      Why(RequiredRead(root, Ascii("country"), AsText)),
      Why(Optional(MapGet(root, Ascii("latitude")), AsF64)),
      Why(Optional(MapGet(root, Ascii("longitude")), AsF64))])
  {
    var ds := LocationForm().demands;
    ScalarsJudge();
    NameBytes();
    AddressBytes();
    LocalityBytes();
    RegionBytes();
    PostalCodeBytes();
    CountryBytes();
    LatitudeBytes();
    LongitudeBytes();
    hide MapGet, RequiredRead, Optional, Ascii, Judges, Settles, Why, AsF64, AsText, NameName, AddressName,
        LocalityName, RegionName, PostalCodeName, CountryName, LatitudeName, LongitudeName;
    RequiredFault(NameName(), TextForm, root, AsText);
    RequiredFault(AddressName(), TextForm, root, AsText);
    RequiredFault(LocalityName(), TextForm, root, AsText);
    RequiredFault(RegionName(), TextForm, root, AsText);
    RequiredFault(PostalCodeName(), TextForm, root, AsText);
    RequiredFault(CountryName(), TextForm, root, AsText);
    OptionalFault(LatitudeName(), FloatForm, root, AsF64);
    OptionalFault(LongitudeName(), FloatForm, root, AsF64);
  }

  lemma LocationFault(root: Value, e: Error)
    ensures LocationOf(root) == Err(e) <==> Fault(LocationForm(), root, e)
  {
    assert LocationForm().RecordForm?;
    hide *;
    LocationSettles(root);
    LocationOrder(root, e);
    Refusal(LocationForm(), [
      Why(RequiredRead(root, Ascii("name"), AsText)),
      Why(RequiredRead(root, Ascii("address"), AsText)),
      Why(RequiredRead(root, Ascii("locality"), AsText)),
      Why(RequiredRead(root, Ascii("region"), AsText)),
      Why(RequiredRead(root, Ascii("postal_code"), AsText)),
      Why(RequiredRead(root, Ascii("country"), AsText)),
      Why(Optional(MapGet(root, Ascii("latitude")), AsF64)),
      Why(Optional(MapGet(root, Ascii("longitude")), AsF64))], root, e);
  }

  lemma LocationFaults(root: Value)
    ensures forall e :: LocationOf(root) == Err(e) <==> Fault(LocationForm(), root, e)
  {
    hide Fault, LocationOf, LocationForm;
    forall e
      ensures LocationOf(root) == Err(e) <==> Fault(LocationForm(), root, e)
    {
      LocationFault(root, e);
    }
  }

  method CsilDecLocation(root: Value) returns (r: Result<Location>)
    ensures r == LocationOf(root)
    ensures forall l :: r == Ok(l) <==> HoldsLocation(root, l)
    ensures forall e :: r == Err(e) <==> Fault(LocationForm(), root, e)
  {
    LocationFaults(root);
    forall l
      ensures LocationOf(root) == Ok(l) <==> HoldsLocation(root, l)
    {
      LocationExact(l, root);
    }
    hide MapGet, Ascii, Fault, LocationForm;
    var out := Location([], [], [], [], [], [], None, None);
    var nameField := Require(root, Ascii("name"));
    if nameField.Err? {
      return Err(nameField.error);
    }
    var name := AsText(nameField.value);
    if name.Err? {
      return Err(name.error);
    }
    out := out.(name := name.value);
    var addressField := Require(root, Ascii("address"));
    if addressField.Err? {
      return Err(addressField.error);
    }
    var address := AsText(addressField.value);
    if address.Err? {
      return Err(address.error);
    }
    out := out.(address := address.value);
    var localityField := Require(root, Ascii("locality"));
    if localityField.Err? {
      return Err(localityField.error);
    }
    var locality := AsText(localityField.value);
    if locality.Err? {
      return Err(locality.error);
    }
    out := out.(locality := locality.value);
    var regionField := Require(root, Ascii("region"));
    if regionField.Err? {
      return Err(regionField.error);
    }
    var region := AsText(regionField.value);
    if region.Err? {
      return Err(region.error);
    }
    out := out.(region := region.value);
    var postalCodeField := Require(root, Ascii("postal_code"));
    if postalCodeField.Err? {
      return Err(postalCodeField.error);
    }
    var postalCode := AsText(postalCodeField.value);
    if postalCode.Err? {
      return Err(postalCode.error);
    }
    out := out.(postalCode := postalCode.value);
    var countryField := Require(root, Ascii("country"));
    if countryField.Err? {
      return Err(countryField.error);
    }
    var country := AsText(countryField.value);
    if country.Err? {
      return Err(country.error);
    }
    out := out.(country := country.value);
    var latitudeField := MapGet(root, Ascii("latitude"));
    if latitudeField.Some? {
      var val := AsF64(latitudeField.value);
      if val.Err? {
        return Err(val.error);
      }
      out := out.(latitude := Some(val.value));
    }
    var longitudeField := MapGet(root, Ascii("longitude"));
    if longitudeField.Some? {
      var val := AsF64(longitudeField.value);
      if val.Err? {
        return Err(val.error);
      }
      out := out.(longitude := Some(val.value));
    }
    r := Ok(out);
  }
}
