/** The wire form of the records TypeScript writes, byte by byte, whatever numbers they hold. */
module TsWire {
  import opened Machine
  import opened Encoder
  import opened Float64
  import opened TsTree
  import opened Fields
  import opened Records
  import opened TsRecords
  import opened Names
  import opened Wire
  import Twins

  /** A JavaScript number: an integer as an integer, anything else as a float. */
  function NumberItem(bits: U64): seq<Byte> {
    if !IsInteger(bits) then FloatItem(bits)
    else if IntOf(bits) >= 0 then Head(0, IntOf(bits))
    else Head(1, -1 - IntOf(bits))
  }

  lemma TsLeafItems(bits: U64, s: seq<Byte>)
    ensures TsEnc(Number(bits)) == NumberItem(bits) && TsEnc(Str(s)) == TextItem(s)
  {
    assert TsEncAll([]) == [] && TsKids(Number(bits)) == [] && TsKids(Str(s)) == [];
    hide Head, BigEndian, IsInteger, IntOf;
  }

  function TsLine(f: TsField): seq<Byte> {
    if f.value.Some? then TsEnc(Str(f.key)) + TsEnc(f.value.value) else []
  }

  function TsLines(fs: seq<TsField>): seq<Byte> {
    if fs == [] then [] else TsLines(fs[..|fs| - 1]) + TsLine(fs[|fs| - 1])
  }

  function TsTotal(fs: seq<TsField>): nat {
    if fs == [] then 0 else TsTotal(fs[..|fs| - 1]) + Count(fs[|fs| - 1].value)
  }

  lemma TsLinesStep(fs: seq<TsField>, i: nat)
    requires i < |fs|
    ensures TsLines(fs[..i + 1]) == TsLines(fs[..i]) + TsLine(fs[i])
    ensures TsTotal(fs[..i + 1]) == TsTotal(fs[..i]) + Count(fs[i].value)
    ensures fs[..|fs|] == fs && TsLines(fs[..0]) == [] && TsTotal(fs[..0]) == 0
  {
    hide TsLine;
    assert fs[..i + 1][..i] == fs[..i];
  }

  lemma {:induction false} TsEncAllAppend(a: seq<TsValue>, b: seq<TsValue>)
    ensures TsEncAll(a + b) == TsEncAll(a) + TsEncAll(b)
  {
    if a == [] {
      assert a + b == b;
    } else {
      hide TsEnc;
      assert (a + b)[1..] == a[1..] + b;
      TsEncAllAppend(a[1..], b);
    }
  }

  lemma TsEncAllPair(a: TsValue, b: TsValue)
    ensures TsEncAll([a, b]) == TsEnc(a) + TsEnc(b)
  {
    hide TsEnc;
    assert [a, b][1..] == [b] && [b][1..] == [] && TsEncAll([b]) == TsEnc(b);
  }

  lemma {:induction false} LaidBytes(fs: seq<TsField>)
    ensures TsEncAll(TsFlatten(Laid(fs))) == TsLines(fs) && |Laid(fs)| == TsTotal(fs)
  {
    if fs == [] {
      assert TsFlatten([]) == [] && TsEncAll([]) == [];
    } else {
      var front, f := fs[..|fs| - 1], fs[|fs| - 1];
      LaidBytes(front);
      hide TsEnc, TsEncAll, TsFlatten;
      if f.value.Some? {
        Twins.KeysSnoc(Laid(front), TsEntry(Str(f.key), f.value.value));
        TsEncAllPair(Str(f.key), f.value.value);
        TsEncAllAppend(TsFlatten(Laid(front)), [Str(f.key), f.value.value]);
      } else {
        assert Laid(fs) == Laid(front) && TsLines(fs) == TsLines(front);
      }
    }
  }

  lemma DictItem(es: seq<TsEntry>)
    ensures TsEnc(Dict(es)) == Head(5, |es|) + TsEncAll(TsFlatten(es))
  {
    assert TsKids(Dict(es)) == TsFlatten(es);
    hide TsEncAll, TsFlatten, Head;
  }

  lemma DictBytes(fs: seq<TsField>)
    requires TsIncreasing(fs) && |fs| < 24
    ensures TsEnc(Dict(TsPresent(fs))) == [0xa0 + TsTotal(fs)] + TsLines(fs) && TsTotal(fs) <= |fs|
  {
    hide TsEnc, TsPresent, TsEncAll, TsFlatten, Head, Laid, TsLines, TsTotal, TsIncreasing;
    PresentLaid(fs);
    LaidBytes(fs);
    DictItem(Laid(fs));
    SmallMapHead(|Laid(fs)|);
  }

  lemma TsTextLine(key: string, name: seq<Byte>, s: Option<seq<Byte>>)
    requires Ascii(key) == name
    ensures TsLine(TsText(key, s)) == Put(name, s, TextItem) && Count(TsText(key, s).value) == Count(s)
    ensures s.Some? ==> TsLine(TsText(key, s)) == Pair(name, TextItem(s.value)) && Count(s) == 1
  {
    TsLeafItems(0, name);
    if s.Some? {
      TsLeafItems(0, s.value);
    }
    hide TsEnc, Ascii, TextItem;
  }

  lemma TsNumberLine(key: string, name: seq<Byte>, bits: Option<U64>)
    requires Ascii(key) == name
    ensures TsLine(TsNumber(key, bits)) == Put(name, bits, NumberItem) && Count(TsNumber(key,
        bits).value) == Count(bits)
    ensures bits.Some? ==> TsLine(TsNumber(key, bits)) == Pair(name, NumberItem(bits.value)) && Count(bits) == 1
  {
    TsLeafItems(0, name);
    if bits.Some? {
      TsLeafItems(bits.value, []);
    }
    hide TsEnc, Ascii, TextItem, NumberItem;
  }

  lemma TsLines5(f0: TsField, f1: TsField, f2: TsField, f3: TsField, f4: TsField)
    ensures TsLines([f0, f1, f2, f3, f4])
         == TsLine(f0) + TsLine(f1) + TsLine(f2) + TsLine(f3) + TsLine(f4)
    ensures TsTotal([f0, f1, f2, f3, f4])
         == Count(f0.value) + Count(f1.value) + Count(f2.value) + Count(f3.value) + Count(f4.value)
  {
    var fs := [f0, f1, f2, f3, f4];
    hide TsLine, Count, TsLines, TsTotal;
    TsLinesStep(fs, 0);
    TsLinesStep(fs, 1);
    TsLinesStep(fs, 2);
    TsLinesStep(fs, 3);
    TsLinesStep(fs, 4);
  }

  lemma TsLines8(f0: TsField, f1: TsField, f2: TsField, f3: TsField, f4: TsField, f5: TsField, f6: TsField,
      f7: TsField)
    ensures TsLines([f0, f1, f2, f3, f4, f5, f6, f7])
         == TsLine(f0) + TsLine(f1) + TsLine(f2) + TsLine(f3) + TsLine(f4) + TsLine(f5) + TsLine(f6) + TsLine(f7)
    ensures TsTotal([f0, f1, f2, f3, f4, f5, f6, f7])
         == Count(f0.value) + Count(f1.value) + Count(f2.value) + Count(f3.value) + Count(f4.value)
          + Count(f5.value) + Count(f6.value) + Count(f7.value)
  {
    var fs := [f0, f1, f2, f3, f4, f5, f6, f7];
    hide TsLine, Count, TsLines, TsTotal;
    TsLinesStep(fs, 0);
    TsLinesStep(fs, 1);
    TsLinesStep(fs, 2);
    TsLinesStep(fs, 3);
    TsLinesStep(fs, 4);
    TsLinesStep(fs, 5);
    TsLinesStep(fs, 6);
    TsLinesStep(fs, 7);
  }

  lemma TsRuleLines(t: TsRule)
    ensures TsTotal(TsRuleFields(t)) == 2 + Count(t.ordinal) + Count(t.weekday) + Count(t.dayOfMonth)
    ensures TsLines(TsRuleFields(t))
         == Pair(FreqName(), TextItem(t.freq))
               + Put(OrdinalName(), t.ordinal, NumberItem)
               + Put(WeekdayName(), t.weekday, TextItem)
               + Pair(IntervalName(), NumberItem(t.interval))
               + Put(DayOfMonthName(), t.dayOfMonth, NumberItem)
  {
    var fs := TsRuleFields(t);
    TsLines5(
      TsText("freq", Some(t.freq)),
      TsNumber("ordinal", t.ordinal),
      TsText("weekday", t.weekday),
      TsNumber("interval", Some(t.interval)),
      TsNumber("day_of_month", t.dayOfMonth));
    assert fs == [
      TsText("freq", Some(t.freq)),
      TsNumber("ordinal", t.ordinal),
      TsText("weekday", t.weekday),
      TsNumber("interval", Some(t.interval)),
      TsNumber("day_of_month", t.dayOfMonth)];
    hide TsLines, TsTotal, TsLine, Ascii, Pair, Put, Count, TsText, TsNumber, TextItem, NumberItem, FreqName,
        OrdinalName, WeekdayName, IntervalName, DayOfMonthName, TsRuleFields;
    FreqBytes();
    TsTextLine("freq", FreqName(), Some(t.freq));
    OrdinalBytes();
    TsNumberLine("ordinal", OrdinalName(), t.ordinal);
    WeekdayBytes();
    TsTextLine("weekday", WeekdayName(), t.weekday);
    IntervalBytes();
    TsNumberLine("interval", IntervalName(), Some(t.interval));
    DayOfMonthBytes();
    TsNumberLine("day_of_month", DayOfMonthName(), t.dayOfMonth);
  }

  lemma TsRuleWire(rt: Runtime, t: TsRule)
    requires AcceptsAscii(rt)
    ensures RuleBytes(t)
         == [0xa2 + Count(t.ordinal) + Count(t.weekday) + Count(t.dayOfMonth)]
            + (Pair(FreqName(), TextItem(t.freq))
               + Put(OrdinalName(), t.ordinal, NumberItem)
               + Put(WeekdayName(), t.weekday, TextItem)
               + Pair(IntervalName(), NumberItem(t.interval))
               + Put(DayOfMonthName(), t.dayOfMonth, NumberItem))
  {
    var fs := TsRuleFields(t);
    assert |fs| == 5 && RuleBytes(t) == TsEnc(Dict(TsPresent(fs)));
    hide *;
    RuleNames(rt, t);
    TsRuleLines(t);
    DictBytes(fs);
    assert 0xa0 + TsTotal(fs) == 0xa2 + Count(t.ordinal) + Count(t.weekday) + Count(t.dayOfMonth);
  }

  lemma TsLocationLines(l: Location)
    ensures TsTotal(TsLocationFields(l)) == 6 + Count(l.latitude) + Count(l.longitude)
    ensures TsLines(TsLocationFields(l))
         == Pair(NameName(), TextItem(l.name))
               + Pair(RegionName(), TextItem(l.region))
               + Pair(AddressName(), TextItem(l.address))
               + Pair(CountryName(), TextItem(l.country))
               + Put(LatitudeName(), l.latitude, NumberItem)
               + Pair(LocalityName(), TextItem(l.locality))
               + Put(LongitudeName(), l.longitude, NumberItem)
               + Pair(PostalCodeName(), TextItem(l.postalCode))
  {
    var fs := TsLocationFields(l);
    TsLines8(
      TsText("name", Some(l.name)),
      TsText("region", Some(l.region)),
      TsText("address", Some(l.address)),
      TsText("country", Some(l.country)),
      TsNumber("latitude", l.latitude),
      TsText("locality", Some(l.locality)),
      TsNumber("longitude", l.longitude),
      TsText("postal_code", Some(l.postalCode)));
    assert fs == [
      TsText("name", Some(l.name)),
      TsText("region", Some(l.region)),
      TsText("address", Some(l.address)),
      TsText("country", Some(l.country)),
      TsNumber("latitude", l.latitude),
      TsText("locality", Some(l.locality)),
      TsNumber("longitude", l.longitude),
      TsText("postal_code", Some(l.postalCode))];
    hide TsLines, TsTotal, TsLine, Ascii, Pair, Put, Count, TsText, TsNumber, TextItem, NumberItem, NameName,
        RegionName, AddressName, CountryName, LatitudeName, LocalityName, LongitudeName, PostalCodeName,
            TsLocationFields;
    NameBytes();
    TsTextLine("name", NameName(), Some(l.name));
    RegionBytes();
    TsTextLine("region", RegionName(), Some(l.region));
    AddressBytes();
    TsTextLine("address", AddressName(), Some(l.address));
    CountryBytes();
    TsTextLine("country", CountryName(), Some(l.country));
    LatitudeBytes();
    TsNumberLine("latitude", LatitudeName(), l.latitude);
    LocalityBytes();
    TsTextLine("locality", LocalityName(), Some(l.locality));
    LongitudeBytes();
    TsNumberLine("longitude", LongitudeName(), l.longitude);
    PostalCodeBytes();
    TsTextLine("postal_code", PostalCodeName(), Some(l.postalCode));
  }

  lemma TsLocationWire(rt: Runtime, l: Location)
    requires AcceptsAscii(rt)
    ensures LocationBytes(l)
         == [0xa6 + Count(l.latitude) + Count(l.longitude)]
            + (Pair(NameName(), TextItem(l.name))
               + Pair(RegionName(), TextItem(l.region))
               + Pair(AddressName(), TextItem(l.address))
               + Pair(CountryName(), TextItem(l.country))
               + Put(LatitudeName(), l.latitude, NumberItem)
               + Pair(LocalityName(), TextItem(l.locality))
               + Put(LongitudeName(), l.longitude, NumberItem)
               + Pair(PostalCodeName(), TextItem(l.postalCode)))
  {
    var fs := TsLocationFields(l);
    assert |fs| == 8 && LocationBytes(l) == TsEnc(Dict(TsPresent(fs)));
    hide *;
    LocationNames(rt, l);
    TsLocationLines(l);
    DictBytes(fs);
    assert 0xa0 + TsTotal(fs) == 0xa6 + Count(l.latitude) + Count(l.longitude);
  }
}
