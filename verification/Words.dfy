/** Which words a decoder takes, byte by byte, in either language. */
module Words {
  import opened Machine
  import opened Fields
  import opened TsTree
  import opened Names
  import opened Vocabulary
  import opened Records
  import opened Gatherings
  import TsReaders
  import TsRecords

  /** "weekly", "monthly", "quarterly" or "yearly". */
  predicate IsFrequency(s: seq<Byte>) {
    || s == [0x77, 0x65, 0x65, 0x6b, 0x6c, 0x79]
    || s == [0x6d, 0x6f, 0x6e, 0x74, 0x68, 0x6c, 0x79]
    || s == [0x71, 0x75, 0x61, 0x72, 0x74, 0x65, 0x72, 0x6c, 0x79]
    || s == [0x79, 0x65, 0x61, 0x72, 0x6c, 0x79]
  }

  lemma IsFrequencyIn(s: seq<Byte>)
    ensures s in Frequencies() <==> IsFrequency(s)
  {
    FrequenciesListed();
    hide Frequencies;
  }

  /** "monday" to "sunday". */
  predicate IsWeekday(s: seq<Byte>) {
    || s == [0x6d, 0x6f, 0x6e, 0x64, 0x61, 0x79]
    || s == [0x74, 0x75, 0x65, 0x73, 0x64, 0x61, 0x79]
    || s == [0x77, 0x65, 0x64, 0x6e, 0x65, 0x73, 0x64, 0x61, 0x79]
    || s == [0x74, 0x68, 0x75, 0x72, 0x73, 0x64, 0x61, 0x79]
    || s == [0x66, 0x72, 0x69, 0x64, 0x61, 0x79]
    || s == [0x73, 0x61, 0x74, 0x75, 0x72, 0x64, 0x61, 0x79]
    || s == [0x73, 0x75, 0x6e, 0x64, 0x61, 0x79]
  }

  lemma IsWeekdayIn(s: seq<Byte>)
    ensures s in Weekdays() <==> IsWeekday(s)
  {
    WeekdaysListed();
    hide Weekdays;
  }

  /** "instance", "organization" or "gathering". */
  predicate IsSource(s: seq<Byte>) {
    || s == [0x69, 0x6e, 0x73, 0x74, 0x61, 0x6e, 0x63, 0x65]
    || s == [0x6f, 0x72, 0x67, 0x61, 0x6e, 0x69, 0x7a, 0x61, 0x74, 0x69, 0x6f, 0x6e]
    || s == [0x67, 0x61, 0x74, 0x68, 0x65, 0x72, 0x69, 0x6e, 0x67]
  }

  lemma IsSourceIn(s: seq<Byte>)
    ensures s in PublishSources() <==> IsSource(s)
  {
    PublishSourcesListed();
    hide PublishSources;
  }

  /** "unset", "in" or "out". */
  predicate IsSetting(s: seq<Byte>) {
    || s == [0x75, 0x6e, 0x73, 0x65, 0x74]
    || s == [0x69, 0x6e]
    || s == [0x6f, 0x75, 0x74]
  }

  lemma IsSettingIn(s: seq<Byte>)
    ensures s in PublishSettings() <==> IsSetting(s)
  {
    PublishSettingsListed();
    hide PublishSettings;
  }

  /** "user" or "organization". */
  predicate IsKind(s: seq<Byte>) {
    || s == [0x75, 0x73, 0x65, 0x72]
    || s == [0x6f, 0x72, 0x67, 0x61, 0x6e, 0x69, 0x7a, 0x61, 0x74, 0x69, 0x6f, 0x6e]
  }

  lemma IsKindIn(s: seq<Byte>)
    ensures s in OwnerKinds() <==> IsKind(s)
  {
    OwnerKindsListed();
    hide OwnerKinds;
  }

  /** Go takes a rule with valid texts exactly when its words are these, byte by byte. */
  lemma RuleWords(rt: Runtime, r: RecurrenceRule)
    requires AcceptsAscii(rt) && RecurrenceRuleValid(rt, r)
    ensures DecodeRecurrenceRule(rt, EncodeRecurrenceRule(r)).Ok?
        <==> && (|| r.freq == [0x77, 0x65, 0x65, 0x6b, 0x6c, 0x79]
                || r.freq == [0x6d, 0x6f, 0x6e, 0x74, 0x68, 0x6c, 0x79]
                || r.freq == [0x71, 0x75, 0x61, 0x72, 0x74, 0x65, 0x72, 0x6c, 0x79]
                || r.freq == [0x79, 0x65, 0x61, 0x72, 0x6c, 0x79])
             && (r.weekday.Some? ==>
                  || r.weekday.value == [0x6d, 0x6f, 0x6e, 0x64, 0x61, 0x79]
                  || r.weekday.value == [0x74, 0x75, 0x65, 0x73, 0x64, 0x61, 0x79]
                  || r.weekday.value == [0x77, 0x65, 0x64, 0x6e, 0x65, 0x73, 0x64, 0x61, 0x79]
                  || r.weekday.value == [0x74, 0x68, 0x75, 0x72, 0x73, 0x64, 0x61, 0x79]
                  || r.weekday.value == [0x66, 0x72, 0x69, 0x64, 0x61, 0x79]
                  || r.weekday.value == [0x73, 0x61, 0x74, 0x75, 0x72, 0x64, 0x61, 0x79]
                  || r.weekday.value == [0x73, 0x75, 0x6e, 0x64, 0x61, 0x79])
  {
    RecurrenceRuleRoundTrip(rt, r);
    IsFrequencyIn(r.freq);
    if r.weekday.Some? {
      IsWeekdayIn(r.weekday.value);
    }
    hide DecodeRecurrenceRule, EncodeRecurrenceRule, Frequencies, Weekdays;
  }

  /** TypeScript takes it exactly when they are once a byte-order mark is dropped. */
  lemma RuleWordsReceived(rt: Runtime, r: RecurrenceRule)
    requires AcceptsAscii(rt) && RecurrenceRuleValid(rt, r)
    ensures TsReaders.FromRecurrenceRuleCbor(rt, EncodeRecurrenceRule(r)).Ok?
        <==> IsFrequency(StripBom(r.freq)) && (r.weekday.Some? ==> IsWeekday(StripBom(r.weekday.value)))
  {
    TsReaders.RuleReceived(rt, r);
    IsFrequencyIn(StripBom(r.freq));
    if r.weekday.Some? {
      IsWeekdayIn(StripBom(r.weekday.value));
    }
    hide TsReaders.FromRecurrenceRuleCbor, EncodeRecurrenceRule, Frequencies, Weekdays, IsFrequency, IsWeekday,
        StripBom;
  }

  /** Go takes a gathering list exactly when every word in it is of these. */
  lemma GatheringListWords(rt: Runtime, l: GatheringList)
    requires AcceptsAscii(rt) && GatheringListValid(rt, l)
    ensures DecodeGatheringList(rt, EncodeGatheringList(rt, l)).Ok?
        <==> forall g | g in l.gatherings ::
               && IsSetting(g.publishEvents) && IsSource(g.publish.source)
               && forall x | x in g.owners :: IsKind(x.kind)
  {
    GatheringListRoundTrip(rt, l);
    forall g | g in l.gatherings
      ensures GatheringDeclared(g)
          <==> IsSetting(g.publishEvents) && IsSource(g.publish.source) && forall x | x in g.owners :: IsKind(x.kind)
    {
      GatheringWords(g);
    }
    hide DecodeGatheringList, EncodeGatheringList, GatheringDeclared, IsSetting, IsSource, IsKind;
  }

  lemma GatheringWords(g: Gathering)
    ensures GatheringDeclared(g)
        <==> IsSetting(g.publishEvents) && IsSource(g.publish.source) && forall x | x in g.owners :: IsKind(x.kind)
  {
    IsSettingIn(g.publishEvents);
    IsSourceIn(g.publish.source);
    forall x | x in g.owners
      ensures OwnerRefDeclared(x) <==> IsKind(x.kind)
    {
      IsKindIn(x.kind);
    }
    hide PublishSettings, PublishSources, OwnerKinds, IsSetting, IsSource, IsKind, OwnerRefDeclared;
  }
}
