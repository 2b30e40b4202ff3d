/** What is wrong with a JavaScript Map that is refused as a record. */
module TsSchema {
  import opened Machine
  import opened TsTree
  import opened Fields
  import opened Names
  import opened Vocabulary
  import opened TsReaders
  import Records
  import Schema
  import Float64

  datatype TsForm =
    | NumberForm
    | StringForm
    | OneOfForm(words: set<seq<Byte>>)

  datatype TsDemand = TsDemand(name: seq<Byte>, required: bool, form: TsForm)

  ghost predicate TsFirst(es: seq<TsEntry>, name: seq<Byte>, i: int) {
    && 0 <= i < |es| && es[i].key == Str(name)
    && forall j | 0 <= j < i :: es[j].key != Str(name)
  }

  ghost predicate TsFinds(t: TsValue, name: seq<Byte>, x: TsValue) {
    t.Dict? && exists i :: TsFirst(t.entries, name, i) && x == t.entries[i].val
  }

  ghost predicate TsMissing(t: TsValue, name: seq<Byte>) {
    t.Dict? ==> forall i :: !TsFirst(t.entries, name, i)
  }

  ghost predicate TsValueFault(form: TsForm, x: TsValue, e: Error) {
    match form
    case NumberForm => !x.Number? && !x.BigInt? && e == WrongType
    case StringForm => !x.Str? && e == WrongType
    case OneOfForm(words) => if x.Str? then x.text !in words && e == NotInEnum else e == WrongType
  }

  ghost predicate TsFieldFault(d: TsDemand, t: TsValue, e: Error) {
    || (d.required && TsMissing(t, d.name) && e == MissingField)
    || exists x :: TsFinds(t, d.name, x) && TsValueFault(d.form, x, e)
  }

  ghost predicate TsFieldFits(d: TsDemand, t: TsValue) {
    forall e :: !TsFieldFault(d, t, e)
  }

  /** The first field at fault, in the order the object is built. */
  ghost predicate TsFault(ds: seq<TsDemand>, n: nat, t: TsValue, e: Error)
    requires n <= |ds|
  {
    exists k | 0 <= k < n :: TsFieldFault(ds[k], t, e) && TsFit(ds, k, t)
  }

  ghost predicate TsFit(ds: seq<TsDemand>, n: nat, t: TsValue)
    requires n <= |ds|
  {
    forall j | 0 <= j < n :: TsFieldFits(ds[j], t)
  }

  lemma TsNext(ds: seq<TsDemand>, n: nat, t: TsValue, e: Error)
    requires n < |ds|
    ensures TsFault(ds, n + 1, t, e) <==> TsFault(ds, n, t, e) || (TsFit(ds, n, t) && TsFieldFault(ds[n], t, e))
    ensures TsFit(ds, n + 1, t) <==> TsFit(ds, n, t) && TsFieldFits(ds[n], t)
  {
    hide TsFieldFault, TsFieldFits;
  }

  lemma TsNone(ds: seq<TsDemand>, t: TsValue, e: Error)
    ensures !TsFault(ds, 0, t, e) && TsFit(ds, 0, t)
  {
  }

  ghost predicate TsSettles(d: TsDemand, t: TsValue, w: Option<Error>) {
    forall e :: TsFieldFault(d, t, e) <==> w == Some(e)
  }

  lemma TsSettled(d: TsDemand, t: TsValue, w: Option<Error>, e: Error)
    requires TsSettles(d, t, w)
    ensures TsFieldFits(d, t) <==> w.None?
    ensures TsFieldFault(d, t, e) <==> w == Some(e)
  {
    hide TsFieldFault;
    if w.Some? {
      assert TsFieldFault(d, t, w.value);
    }
  }

  lemma {:induction false} TsRefusal(ds: seq<TsDemand>, ws: seq<Option<Error>>, n: nat, t: TsValue, e: Error)
    requires |ds| == |ws| && n <= |ws| && forall k | 0 <= k < |ws| :: TsSettles(ds[k], t, ws[k])
    ensures TsFault(ds, n, t, e) <==> Schema.FirstOf(ws[..n]) == Some(e)
    ensures TsFit(ds, n, t) <==> Schema.FirstOf(ws[..n]).None?
  {
    hide *;
    TsNone(ds, t, e);
    if n > 0 {
      TsRefusal(ds, ws, n - 1, t, e);
      TsNext(ds, n - 1, t, e);
      TsSettled(ds[n - 1], t, ws[n - 1], e);
      Schema.FirstNext(ws, n - 1);
    } else {
      Schema.FirstNone();
    }
  }

  lemma {:induction false} TsFirstAt(es: seq<TsEntry>, name: seq<Byte>)
    ensures DictGet(es, name).None? <==> forall i :: !TsFirst(es, name, i)
    ensures forall i | TsFirst(es, name, i) :: DictGet(es, name) == Some(es[i].val)
    ensures DictGet(es, name).Some? ==> exists i :: TsFirst(es, name, i)
  {
    if es != [] {
      TsFirstAt(es[1..], name);
      if es[0].key == Str(name) {
        assert TsFirst(es, name, 0);
      } else {
        forall i
          ensures TsFirst(es, name, i) <==> TsFirst(es[1..], name, i - 1)
        {
          if 0 < i < |es| {
            assert es[1..][i - 1] == es[i];
            assert forall j | 0 < j < i :: es[1..][j - 1] == es[j];
            assert forall j | 0 <= j < i - 1 :: es[1..][j] == es[j + 1];
          }
        }
        if DictGet(es, name).Some? {
          var i :| TsFirst(es[1..], name, i);
          assert TsFirst(es, name, i + 1);
        }
      }
    }
  }

  lemma TsLookup(t: TsValue, name: seq<Byte>)
    ensures TsMapGet(t, name).None? <==> TsMissing(t, name)
    ensures forall x :: TsFinds(t, name, x) <==> TsMapGet(t, name) == Some(x)
  {
    if t.Dict? {
      TsFirstAt(t.entries, name);
    }
    hide DictGet, TsFirst;
  }

  ghost predicate TsJudges<T(!new)>(form: TsForm, read: TsValue -> Result<T>) {
    forall x, e :: read(x) == Err(e) <==> TsValueFault(form, x, e)
  }

  lemma ReadersJudge()
    ensures TsJudges(NumberForm, AsNumber) && TsJudges(StringForm, AsString)
  {
    hide Float64.OfInt;
  }

  function AsFrequency(t: TsValue): Result<seq<Byte>> {
    AsEnumMember(t, Records.Frequencies())
  }

  function AsWeekday(t: TsValue): Result<seq<Byte>> {
    AsEnumMember(t, Records.Weekdays())
  }

  lemma WordsJudge()
    ensures TsJudges(OneOfForm(Records.Frequencies()), AsFrequency)
    ensures TsJudges(OneOfForm(Records.Weekdays()), AsWeekday)
  {
    hide Records.Frequencies, Records.Weekdays;
  }

  function RequiredRead<T>(t: TsValue, name: seq<Byte>, read: TsValue -> Result<T>): Result<T> {
    var x :- RequireKey(t, name);
    read(x)
  }

  lemma RequiredFault<T(!new)>(name: seq<Byte>, form: TsForm, t: TsValue, read: TsValue -> Result<T>)
    requires TsJudges(form, read)
    ensures TsSettles(TsDemand(name, true, form), t, Schema.Why(RequiredRead(t, name, read)))
  {
    var d, r := TsDemand(name, true, form), RequiredRead(t, name, read);
    TsLookup(t, name);
    forall e
      ensures TsFieldFault(d, t, e) <==> r == Err(e)
    {
      hide TsMapGet, TsFinds, TsMissing, TsValueFault;
    }
    hide TsFieldFault, RequiredRead, TsJudges;
  }

  lemma OptionalFault<T(!new)>(name: seq<Byte>, form: TsForm, t: TsValue, read: TsValue -> Result<T>)
    requires TsJudges(form, read)
    ensures TsSettles(TsDemand(name, false, form), t, Schema.Why(Undefinable(TsMapGet(t, name), read)))
  {
    var d, r := TsDemand(name, false, form), Undefinable(TsMapGet(t, name), read);
    TsLookup(t, name);
    forall e
      ensures TsFieldFault(d, t, e) <==> r == Err(e)
    {
      hide TsMapGet, TsFinds, TsMissing, TsValueFault;
    }
    hide TsFieldFault, Undefinable, TsMapGet, TsJudges;
  }

  // RecurrenceRule.

  function RecurrenceRuleDemands(): (ds: seq<TsDemand>)
    ensures |ds| == 5
  {
    [
      TsDemand(FreqName(), true, OneOfForm({WeeklyWord(), MonthlyWord(), QuarterlyWord(), YearlyWord()})),
      TsDemand(IntervalName(), true, NumberForm),
      TsDemand(WeekdayName(), false, OneOfForm({MondayWord(), TuesdayWord(), WednesdayWord(), ThursdayWord(),
          FridayWord(), SaturdayWord(), SundayWord()})),
      TsDemand(OrdinalName(), false, NumberForm),
      TsDemand(DayOfMonthName(), false, NumberForm)
    ]
  }

  function RecurrenceRuleWhys(t: TsValue): (ws: seq<Option<Error>>)
    ensures |ws| == 5
  {
    [
      Schema.Why(RequiredRead(t, Ascii("freq"), AsFrequency)),
      Schema.Why(RequiredRead(t, Ascii("interval"), AsNumber)),
      Schema.Why(Undefinable(TsMapGet(t, Ascii("weekday")), AsWeekday)),
      Schema.Why(Undefinable(TsMapGet(t, Ascii("ordinal")), AsNumber)),
      Schema.Why(Undefinable(TsMapGet(t, Ascii("day_of_month")), AsNumber))
    ]
  }

  lemma RecurrenceRuleOrder(t: TsValue, e: Error)
    ensures FromRecurrenceRule(t) == Err(e) <==> Schema.FirstOf(RecurrenceRuleWhys(t)) == Some(e)
  {
    Schema.First5(
      Schema.Why(RequiredRead(t, Ascii("freq"), AsFrequency)),
      Schema.Why(RequiredRead(t, Ascii("interval"), AsNumber)),
      Schema.Why(Undefinable(TsMapGet(t, Ascii("weekday")), AsWeekday)),
      Schema.Why(Undefinable(TsMapGet(t, Ascii("ordinal")), AsNumber)),
      Schema.Why(Undefinable(TsMapGet(t, Ascii("day_of_month")), AsNumber)));
    hide TsMapGet, RequireKey, Ascii, Schema.FirstOf, AsNumber, AsString, AsEnumMember, Records.Frequencies,
        Records.Weekdays;
  }

  lemma RecurrenceRuleSettles(t: TsValue)
    ensures forall k | 0 <= k < 5 :: TsSettles(RecurrenceRuleDemands()[k], t, RecurrenceRuleWhys(t)[k])
  {
    var ds, ws := RecurrenceRuleDemands(), RecurrenceRuleWhys(t);
    ReadersJudge();
    WordsJudge();
    FrequenciesListed();
    WeekdaysListed();
    FreqBytes();
    IntervalBytes();
    WeekdayBytes();
    OrdinalBytes();
    DayOfMonthBytes();
    RequiredFault(FreqName(), OneOfForm({WeeklyWord(), MonthlyWord(), QuarterlyWord(), YearlyWord()}), t,
        AsFrequency);
    RequiredFault(IntervalName(), NumberForm, t, AsNumber);
    OptionalFault(WeekdayName(), OneOfForm({MondayWord(), TuesdayWord(), WednesdayWord(), ThursdayWord(),
        FridayWord(), SaturdayWord(), SundayWord()}), t, AsWeekday);
    OptionalFault(OrdinalName(), NumberForm, t, AsNumber);
    OptionalFault(DayOfMonthName(), NumberForm, t, AsNumber);
    hide TsMapGet, RequiredRead, Undefinable, Ascii, TsJudges, TsSettles, Schema.Why, AsNumber, AsString,
        AsFrequency, AsWeekday, Records.Frequencies, Records.Weekdays, FreqName, IntervalName, WeekdayName,
            OrdinalName, DayOfMonthName, WeeklyWord, MonthlyWord, QuarterlyWord, YearlyWord, MondayWord,
                TuesdayWord, WednesdayWord, ThursdayWord, FridayWord, SaturdayWord, SundayWord;
    forall k | 0 <= k < 5
      ensures TsSettles(ds[k], t, ws[k])
    {
      assert k == 0 || k == 1 || k == 2 || k == 3 || k == 4;
    }
  }

  /** TypeScript refuses a Map as this record exactly with the error of the first field at fault. */
  lemma RecurrenceRuleRefused(t: TsValue, e: Error)
    ensures FromRecurrenceRule(t) == Err(e) <==> TsFault(RecurrenceRuleDemands(), 5, t, e)
  {
    RecurrenceRuleSettles(t);
    hide *;
    RecurrenceRuleOrder(t, e);
    TsRefusal(RecurrenceRuleDemands(), RecurrenceRuleWhys(t), 5, t, e);
    assert RecurrenceRuleWhys(t)[..5] == RecurrenceRuleWhys(t);
  }

  // Location.

  function LocationDemands(): (ds: seq<TsDemand>)
    ensures |ds| == 8
  {
    [
      TsDemand(NameName(), true, StringForm),
      TsDemand(AddressName(), true, StringForm),
      TsDemand(LocalityName(), true, StringForm),
      TsDemand(RegionName(), true, StringForm),
      TsDemand(PostalCodeName(), true, StringForm),
      TsDemand(CountryName(), true, StringForm),
      TsDemand(LatitudeName(), false, NumberForm),
      TsDemand(LongitudeName(), false, NumberForm)
    ]
  }

  function LocationWhys(t: TsValue): (ws: seq<Option<Error>>)
    ensures |ws| == 8
  {
    [
      Schema.Why(RequiredRead(t, Ascii("name"), AsString)),
      Schema.Why(RequiredRead(t, Ascii("address"), AsString)),
      Schema.Why(RequiredRead(t, Ascii("locality"), AsString)),
      Schema.Why(RequiredRead(t, Ascii("region"), AsString)),
      Schema.Why(RequiredRead(t, Ascii("postal_code"), AsString)),
      Schema.Why(RequiredRead(t, Ascii("country"), AsString)),
      Schema.Why(Undefinable(TsMapGet(t, Ascii("latitude")), AsNumber)),
      Schema.Why(Undefinable(TsMapGet(t, Ascii("longitude")), AsNumber))
    ]
  }

  lemma LocationOrder(t: TsValue, e: Error)
    ensures FromLocation(t) == Err(e) <==> Schema.FirstOf(LocationWhys(t)) == Some(e)
  {
    Schema.First8(
      Schema.Why(RequiredRead(t, Ascii("name"), AsString)),
      Schema.Why(RequiredRead(t, Ascii("address"), AsString)),
      Schema.Why(RequiredRead(t, Ascii("locality"), AsString)),
      Schema.Why(RequiredRead(t, Ascii("region"), AsString)),
      Schema.Why(RequiredRead(t, Ascii("postal_code"), AsString)),
      Schema.Why(RequiredRead(t, Ascii("country"), AsString)),
      Schema.Why(Undefinable(TsMapGet(t, Ascii("latitude")), AsNumber)),
      Schema.Why(Undefinable(TsMapGet(t, Ascii("longitude")), AsNumber)));
    hide TsMapGet, RequireKey, Ascii, Schema.FirstOf, AsNumber, AsString, AsEnumMember, Records.Frequencies,
        Records.Weekdays;
  }

  lemma LocationSettles(t: TsValue)
    ensures forall k | 0 <= k < 8 :: TsSettles(LocationDemands()[k], t, LocationWhys(t)[k])
  {
    var ds, ws := LocationDemands(), LocationWhys(t);
    ReadersJudge();
    WordsJudge();
    NameBytes();
    AddressBytes();
    LocalityBytes();
    RegionBytes();
    PostalCodeBytes();
    CountryBytes();
    LatitudeBytes();
    LongitudeBytes();
    RequiredFault(NameName(), StringForm, t, AsString);
    RequiredFault(AddressName(), StringForm, t, AsString);
    RequiredFault(LocalityName(), StringForm, t, AsString);
    RequiredFault(RegionName(), StringForm, t, AsString);
    RequiredFault(PostalCodeName(), StringForm, t, AsString);
    RequiredFault(CountryName(), StringForm, t, AsString);
    OptionalFault(LatitudeName(), NumberForm, t, AsNumber);
    OptionalFault(LongitudeName(), NumberForm, t, AsNumber);
    hide TsMapGet, RequiredRead, Undefinable, Ascii, TsJudges, TsSettles, Schema.Why, AsNumber, AsString,
        AsFrequency, AsWeekday, Records.Frequencies, Records.Weekdays, NameName, AddressName, LocalityName,
            RegionName, PostalCodeName, CountryName, LatitudeName, LongitudeName;
    forall k | 0 <= k < 8
      ensures TsSettles(ds[k], t, ws[k])
    {
      assert k == 0 || k == 1 || k == 2 || k == 3 || k == 4 || k == 5 || k == 6 || k == 7;
    }
  }

  /** TypeScript refuses a Map as this record exactly with the error of the first field at fault. */
  lemma LocationRefused(t: TsValue, e: Error)
    ensures FromLocation(t) == Err(e) <==> TsFault(LocationDemands(), 8, t, e)
  {
    LocationSettles(t);
    hide *;
    LocationOrder(t, e);
    TsRefusal(LocationDemands(), LocationWhys(t), 8, t, e);
    assert LocationWhys(t)[..8] == LocationWhys(t);
  }
}
