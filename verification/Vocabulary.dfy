/** The words of each vocabulary, and that a decoder takes a record exactly when its words are among them. */
module Vocabulary {
  import opened Machine
  import opened Fields
  import opened Names
  import opened Records
  import opened Gatherings

  lemma FrequenciesListed()
    ensures Frequencies() == {WeeklyWord(), MonthlyWord(), QuarterlyWord(), YearlyWord()}
  {
    WeeklyBytes();
    MonthlyBytes();
    QuarterlyBytes();
    YearlyBytes();
    hide Ascii, WeeklyWord, MonthlyWord, QuarterlyWord, YearlyWord;
  }

  lemma WeekdaysListed()
    ensures Weekdays() == {MondayWord(), TuesdayWord(), WednesdayWord(), ThursdayWord(), FridayWord(),
        SaturdayWord(), SundayWord()}
  {
    MondayBytes();
    TuesdayBytes();
    WednesdayBytes();
    ThursdayBytes();
    FridayBytes();
    SaturdayBytes();
    SundayBytes();
    hide Ascii, MondayWord, TuesdayWord, WednesdayWord, ThursdayWord, FridayWord, SaturdayWord, SundayWord;
  }

  lemma PublishSourcesListed()
    ensures PublishSources() == {InstanceWord(), OrganizationWord(), GatheringWord()}
  {
    InstanceBytes();
    OrganizationBytes();
    GatheringBytes();
    hide Ascii, InstanceWord, OrganizationWord, GatheringWord;
  }

  lemma PublishSettingsListed()
    ensures PublishSettings() == {UnsetWord(), InWord(), OutWord()}
  {
    UnsetBytes();
    InBytes();
    OutBytes();
    hide Ascii, UnsetWord, InWord, OutWord;
  }

  lemma OwnerKindsListed()
    ensures OwnerKinds() == {UserWord(), OrganizationWord()}
  {
    UserBytes();
    OrganizationBytes();
    hide Ascii, UserWord, OrganizationWord;
  }
}
