/** Reading a gathering list: which maps are read as which gathering, field by field and in any order. */
module GatheringReaders {
  import opened Machine
  import opened CborTree
  import opened Fields
  import opened Collections
  import opened Names
  import opened Vocabulary
  import opened Schema
  import opened Records
  import opened Gatherings

  // The parts of a gathering that are no scalars.

  /** The key holds this list of owners, each read field by field. */
  ghost predicate HoldsOwners(root: Value, owners: seq<OwnerRef>) {
    && MapGet(root, Ascii("owners")).Some?
    && var v := MapGet(root, Ascii("owners")).value;
       v.Array? && |v.items| == |owners| && forall i | 0 <= i < |owners| :: HoldsOwnerRef(v.items[i], owners[i])
  }

  /** The key holds a timestamp whose text parses to this instant; an absent one is not there. */
  ghost predicate HoldsTime(rt: Runtime, root: Value, key: string, t: Option<int>) {
    match MapGet(root, Ascii(key))
    case None => t.None?
    case Some(v) =>
      t.Some? && v.Tag? && v.num == 0 && v.inner.Text? && rt.parseTime(v.inner.text) == t
  }

  lemma OwnersExact(root: Value, owners: seq<OwnerRef>)
    ensures Require(root, Ascii("owners")).Ok?
        && DecArray(Require(root, Ascii("owners")).value, OwnerRefOf) == Ok(owners)
        <==> HoldsOwners(root, owners)
  {
    hide MapGet, Ascii, OwnerRefOf, HoldsOwnerRef, DecArray;
    if MapGet(root, Ascii("owners")).Some? {
      var v := MapGet(root, Ascii("owners")).value;
      DecArrayExact(v, OwnerRefOf, owners);
      if v.Array? && |v.items| == |owners| {
        forall i | 0 <= i < |owners|
          ensures OwnerRefOf(v.items[i]) == Ok(owners[i]) <==> HoldsOwnerRef(v.items[i], owners[i])
        {
          OwnerRefExact(owners[i], v.items[i]);
        }
      }
    }
  }

  lemma TimeExact(rt: Runtime, root: Value, key: string, t: int)
    ensures Require(root, Ascii(key)).Ok? && AsTimestamp(rt, Require(root, Ascii(key)).value) == Ok(t)
        <==> HoldsTime(rt, root, key, Some(t))
    ensures MapGet(root, Ascii(key)).Some? ==>
      (AsTimestamp(rt, MapGet(root, Ascii(key)).value) == Ok(t) <==> HoldsTime(rt, root, key, Some(t)))
    ensures HoldsTime(rt, root, key, None) <==> MapGet(root, Ascii(key)).None?
    ensures HoldsTime(rt, root, key, Some(t)) ==> MapGet(root, Ascii(key)).Some?
  {
    hide MapGet, Ascii;
  }

  // A gathering, in the three groups its decoder reads.

  ghost predicate HoldsNames(root: Value, id: seq<Byte>, slug: seq<Byte>, originDomain: seq<Byte>, name: seq<Byte>,
                             blurb: seq<Byte>, description: seq<Byte>) {
    && Alike(root, TextField("id", Some(id))) && Alike(root, TextField("slug", Some(slug)))
    && Alike(root, TextField("origin_domain", Some(originDomain))) && Alike(root, TextField("name", Some(name)))
    && Alike(root, TextField("blurb", Some(blurb))) && Alike(root, TextField("description", Some(description)))
  }

  ghost predicate HoldsCounts(rt: Runtime, root: Value, owners: seq<OwnerRef>, memberCount: U64, eventCount: U64,
                              nextEventAt: Option<int>, publishEvents: seq<Byte>) {
    && HoldsOwners(root, owners)
    && Alike(root, UintField("member_count", Some(memberCount)))
    && Alike(root, UintField("event_count", Some(eventCount)))
    && HoldsTime(rt, root, "next_event_at", nextEventAt)
    && Alike(root, TextField("publish_events", Some(publishEvents))) && publishEvents in PublishSettings()
  }

  ghost predicate HoldsParts(rt: Runtime, root: Value, publish: PublishDecision, origin: Origin,
                            viewer: ViewerContext, createdAt: int, updatedAt: int) {
    && MapGet(root, Ascii("publish")).Some? && HoldsPublishDecision(MapGet(root, Ascii("publish")).value, publish)
    && MapGet(root, Ascii("origin")).Some? && HoldsOrigin(MapGet(root, Ascii("origin")).value, origin)
    && MapGet(root, Ascii("viewer")).Some? && HoldsViewerContext(MapGet(root, Ascii("viewer")).value, viewer)
    && HoldsTime(rt, root, "created_at", Some(createdAt)) && HoldsTime(rt, root, "updated_at", Some(updatedAt))
  }

  ghost predicate HoldsGathering(rt: Runtime, root: Value, g: Gathering) {
    && HoldsNames(root, g.id, g.slug, g.originDomain, g.name, g.blurb, g.description)
    && HoldsCounts(rt, root, g.owners, g.memberCount, g.eventCount, g.nextEventAt, g.publishEvents)
    && HoldsParts(rt, root, g.publish, g.origin, g.viewer, g.createdAt, g.updatedAt)
  }

  lemma NamesExact(rt: Runtime, root: Value, g: Gathering)
    ensures GatheringNames(rt, root) == Ok((g.id, g.slug, g.originDomain, g.name, g.blurb, g.description))
        <==> HoldsNames(root, g.id, g.slug, g.originDomain, g.name, g.blurb, g.description)
  {
    TextAlike(root, "id", Some(g.id));
    TextAlike(root, "slug", Some(g.slug));
    TextAlike(root, "origin_domain", Some(g.originDomain));
    TextAlike(root, "name", Some(g.name));
    TextAlike(root, "blurb", Some(g.blurb));
    TextAlike(root, "description", Some(g.description));
    hide Alike, MapGet, Require, Ascii, AsText, TextField, Optional;
  }

  lemma CountsExact(rt: Runtime, root: Value, g: Gathering)
    ensures GatheringCounts(rt, root) == Ok((g.owners, g.memberCount, g.eventCount, g.nextEventAt, g.publishEvents))
        <==> HoldsCounts(rt, root, g.owners, g.memberCount, g.eventCount, g.nextEventAt, g.publishEvents)
  {
    OwnersExact(root, g.owners);
    UintAlike(root, "member_count", Some(g.memberCount));
    UintAlike(root, "event_count", Some(g.eventCount));
    TimeExact(rt, root, "next_event_at", if g.nextEventAt.Some? then g.nextEventAt.value else 0);
    TextAlike(root, "publish_events", Some(g.publishEvents));
    WordRequired(root, "publish_events", g.publishEvents, PublishSettings());
    hide Alike, MapGet, Require, Ascii, AsText, AsU64, AsTimestamp, AsMember, TextField, UintField, DecArray,
      OwnerRefOf,
      HoldsOwners, HoldsTime, PublishSettings;
  }

  lemma PartsExact(rt: Runtime, root: Value, g: Gathering)
    ensures GatheringParts(rt, root) == Ok((g.publish, g.origin, g.viewer, g.createdAt, g.updatedAt))
        <==> HoldsParts(rt, root, g.publish, g.origin, g.viewer, g.createdAt, g.updatedAt)
  {
    var publish, origin, viewer :=
      MapGet(root, Ascii("publish")), MapGet(root, Ascii("origin")), MapGet(root, Ascii("viewer"));
    if publish.Some? {
      PublishDecisionExact(g.publish, publish.value);
    }
    if origin.Some? {
      OriginExact(g.origin, origin.value);
    }
    if viewer.Some? {
      ViewerContextExact(g.viewer, viewer.value);
    }
    TimeExact(rt, root, "created_at", g.createdAt);
    TimeExact(rt, root, "updated_at", g.updatedAt);
    hide MapGet, Ascii, AsTimestamp, PublishDecisionOf, OriginOf, ViewerContextOf, HoldsPublishDecision, HoldsOrigin,
      HoldsViewerContext, HoldsTime;
  }

  /** The maps read as this gathering: those that hold its fields, in any order and among any others. */
  lemma GatheringExact(rt: Runtime, root: Value, g: Gathering)
    ensures GatheringOf(rt, root) == Ok(g) <==> HoldsGathering(rt, root, g)
  {
    NamesExact(rt, root, g);
    CountsExact(rt, root, g);
    PartsExact(rt, root, g);
    hide GatheringNames, GatheringCounts, GatheringParts, HoldsNames, HoldsCounts, HoldsParts;
    if GatheringOf(rt, root) == Ok(g) {
      var n, c, p := GatheringNames(rt, root).value, GatheringCounts(rt, root).value, GatheringParts(rt, root).value;
      assert n == (n.0, n.1, n.2, n.3, n.4, n.5) && c == (c.0, c.1, c.2, c.3, c.4) && p == (p.0, p.1, p.2, p.3, p.4);
    }
  }

  // What is wrong with a gathering that is refused: the small records inside it first.

  /** The schema of a ViewerContext, in the order its fields are read. */
  function ViewerContextForm(): Form {
    RecordForm([
      Demand(IsAdminName(), true, BoolForm),
      Demand(IsOwnerName(), true, BoolForm),
      Demand(IsOrganizerName(), true, BoolForm),
      Demand(IsPresenterName(), true, BoolForm),
      Demand(IsMemberName(), true, BoolForm),
      Demand(HasJoinedName(), true, BoolForm),
      Demand(CanEditName(), true, BoolForm),
      Demand(CanDeleteName(), true, BoolForm),
      Demand(CanManageMembersName(), true, BoolForm)
    ])
  }

  lemma ViewerContextOrder(root: Value, e: Error)
    ensures ViewerContextOf(root) == Err(e) <==> FirstOf([
      Why(RequiredRead(root, Ascii("is_admin"), AsBool)),
      Why(RequiredRead(root, Ascii("is_owner"), AsBool)),
      Why(RequiredRead(root, Ascii("is_organizer"), AsBool)),
      Why(RequiredRead(root, Ascii("is_presenter"), AsBool)),
      Why(RequiredRead(root, Ascii("is_member"), AsBool)),
      Why(RequiredRead(root, Ascii("has_joined"), AsBool)),
      Why(RequiredRead(root, Ascii("can_edit"), AsBool)),
      Why(RequiredRead(root, Ascii("can_delete"), AsBool)),
      Why(RequiredRead(root, Ascii("can_manage_members"), AsBool))]) == Some(e)
  {
    First9(
      Why(RequiredRead(root, Ascii("is_admin"), AsBool)),
      Why(RequiredRead(root, Ascii("is_owner"), AsBool)),
      Why(RequiredRead(root, Ascii("is_organizer"), AsBool)),
      Why(RequiredRead(root, Ascii("is_presenter"), AsBool)),
      Why(RequiredRead(root, Ascii("is_member"), AsBool)),
      Why(RequiredRead(root, Ascii("has_joined"), AsBool)),
      Why(RequiredRead(root, Ascii("can_edit"), AsBool)),
      Why(RequiredRead(root, Ascii("can_delete"), AsBool)),
      Why(RequiredRead(root, Ascii("can_manage_members"), AsBool)));
    hide MapGet, Require, Ascii, FirstOf, AsBool;
  }

  lemma ViewerContextSettles(root: Value)
    ensures AllSettle(ViewerContextForm().demands, root, [
      Why(RequiredRead(root, Ascii("is_admin"), AsBool)),
      Why(RequiredRead(root, Ascii("is_owner"), AsBool)),
      Why(RequiredRead(root, Ascii("is_organizer"), AsBool)),
      Why(RequiredRead(root, Ascii("is_presenter"), AsBool)),
      Why(RequiredRead(root, Ascii("is_member"), AsBool)),
      Why(RequiredRead(root, Ascii("has_joined"), AsBool)),
      Why(RequiredRead(root, Ascii("can_edit"), AsBool)),
      Why(RequiredRead(root, Ascii("can_delete"), AsBool)),
      Why(RequiredRead(root, Ascii("can_manage_members"), AsBool))])
  {
    var ds := ViewerContextForm().demands;
    ScalarsJudge();
    IsAdminBytes();
    IsOwnerBytes();
    IsOrganizerBytes();
    IsPresenterBytes();
    IsMemberBytes();
    HasJoinedBytes();
    CanEditBytes();
    CanDeleteBytes();
    CanManageMembersBytes();
    hide MapGet, RequiredRead, Optional, Ascii, Judges, Settles, Why, AsBool, IsAdminName, IsOwnerName,
        IsOrganizerName, IsPresenterName, IsMemberName, HasJoinedName, CanEditName, CanDeleteName,
            CanManageMembersName;
    RequiredFault(IsAdminName(), BoolForm, root, AsBool);
    RequiredFault(IsOwnerName(), BoolForm, root, AsBool);
    RequiredFault(IsOrganizerName(), BoolForm, root, AsBool);
    RequiredFault(IsPresenterName(), BoolForm, root, AsBool);
    RequiredFault(IsMemberName(), BoolForm, root, AsBool);
    RequiredFault(HasJoinedName(), BoolForm, root, AsBool);
    RequiredFault(CanEditName(), BoolForm, root, AsBool);
    RequiredFault(CanDeleteName(), BoolForm, root, AsBool);
    RequiredFault(CanManageMembersName(), BoolForm, root, AsBool);
  }

  lemma ViewerContextFault(root: Value, e: Error)
    ensures ViewerContextOf(root) == Err(e) <==> Fault(ViewerContextForm(), root, e)
  {
    assert ViewerContextForm().RecordForm?;
    hide *;
    ViewerContextSettles(root);
    ViewerContextOrder(root, e);
    Refusal(ViewerContextForm(), [
      Why(RequiredRead(root, Ascii("is_admin"), AsBool)),
      Why(RequiredRead(root, Ascii("is_owner"), AsBool)),
      Why(RequiredRead(root, Ascii("is_organizer"), AsBool)),
      Why(RequiredRead(root, Ascii("is_presenter"), AsBool)),
      Why(RequiredRead(root, Ascii("is_member"), AsBool)),
      Why(RequiredRead(root, Ascii("has_joined"), AsBool)),
      Why(RequiredRead(root, Ascii("can_edit"), AsBool)),
      Why(RequiredRead(root, Ascii("can_delete"), AsBool)),
      Why(RequiredRead(root, Ascii("can_manage_members"), AsBool))], root, e);
  }

  /** The schema of a PublishDecision, in the order its fields are read. */
  function PublishDecisionForm(): Form {
    RecordForm([
      Demand(PublishingName(), true, BoolForm),
      Demand(SourceName(), true, WordForm({InstanceWord(), OrganizationWord(), GatheringWord()})),
      Demand(CanOverrideName(), true, BoolForm)
    ])
  }

  lemma PublishDecisionOrder(root: Value, e: Error)
    ensures PublishDecisionOf(root) == Err(e) <==> FirstOf([
      Why(RequiredRead(root, Ascii("publishing"), AsBool)),
      Why(RequiredRead(root, Ascii("source"), AsSource)),
      Why(RequiredRead(root, Ascii("can_override"), AsBool))]) == Some(e)
  {
    First3(
      Why(RequiredRead(root, Ascii("publishing"), AsBool)),
      Why(RequiredRead(root, Ascii("source"), AsSource)),
      Why(RequiredRead(root, Ascii("can_override"), AsBool)));
    hide MapGet, Require, Ascii, FirstOf, AsBool, AsText, AsMember, PublishSources;
  }

  lemma PublishDecisionSettles(root: Value)
    ensures AllSettle(PublishDecisionForm().demands, root, [
      Why(RequiredRead(root, Ascii("publishing"), AsBool)),
      Why(RequiredRead(root, Ascii("source"), AsSource)),
      Why(RequiredRead(root, Ascii("can_override"), AsBool))])
  {
    var ds := PublishDecisionForm().demands;
    ScalarsJudge();
    PublishSourcesListed();
    WordsJudge(PublishSources(), AsSource);
    PublishingBytes();
    SourceBytes();
    CanOverrideBytes();
    hide MapGet, RequiredRead, Optional, Ascii, Judges, Settles, Why, AsBool, AsText, AsMember, PublishSources,
        PublishingName, SourceName, CanOverrideName, InstanceWord, OrganizationWord, GatheringWord;
    RequiredFault(PublishingName(), BoolForm, root, AsBool);
    RequiredFault(SourceName(), WordForm({InstanceWord(), OrganizationWord(), GatheringWord()}), root, AsSource);
    RequiredFault(CanOverrideName(), BoolForm, root, AsBool);
  }

  lemma PublishDecisionFault(root: Value, e: Error)
    ensures PublishDecisionOf(root) == Err(e) <==> Fault(PublishDecisionForm(), root, e)
  {
    assert PublishDecisionForm().RecordForm?;
    hide *;
    PublishDecisionSettles(root);
    PublishDecisionOrder(root, e);
    Refusal(PublishDecisionForm(), [
      Why(RequiredRead(root, Ascii("publishing"), AsBool)),
      Why(RequiredRead(root, Ascii("source"), AsSource)),
      Why(RequiredRead(root, Ascii("can_override"), AsBool))], root, e);
  }

  /** The schema of an Origin, in the order its fields are read. */
  function OriginForm(): Form {
    RecordForm([
      Demand(DomainName(), true, TextForm),
      Demand(IsExternalName(), true, BoolForm),
      Demand(PeerAddressName(), false, TextForm)
    ])
  }

  lemma OriginOrder(root: Value, e: Error)
    ensures OriginOf(root) == Err(e) <==> FirstOf([
      Why(RequiredRead(root, Ascii("domain"), AsText)),
      Why(RequiredRead(root, Ascii("is_external"), AsBool)),
      Why(Optional(MapGet(root, Ascii("peer_address")), AsText))]) == Some(e)
  {
    First3(
      Why(RequiredRead(root, Ascii("domain"), AsText)),
      Why(RequiredRead(root, Ascii("is_external"), AsBool)),
      Why(Optional(MapGet(root, Ascii("peer_address")), AsText)));
    hide MapGet, Require, Ascii, FirstOf, AsBool, AsText;
  }

  lemma OriginSettles(root: Value)
    ensures AllSettle(OriginForm().demands, root, [
      Why(RequiredRead(root, Ascii("domain"), AsText)),
      Why(RequiredRead(root, Ascii("is_external"), AsBool)),
      Why(Optional(MapGet(root, Ascii("peer_address")), AsText))])
  {
    var ds := OriginForm().demands;
    ScalarsJudge();
    DomainBytes();
    IsExternalBytes();
    PeerAddressBytes();
    hide MapGet, RequiredRead, Optional, Ascii, Judges, Settles, Why, AsBool, AsText, DomainName, IsExternalName,
        PeerAddressName;
    RequiredFault(DomainName(), TextForm, root, AsText);
    RequiredFault(IsExternalName(), BoolForm, root, AsBool);
    OptionalFault(PeerAddressName(), TextForm, root, AsText);
  }

  lemma OriginFault(root: Value, e: Error)
    ensures OriginOf(root) == Err(e) <==> Fault(OriginForm(), root, e)
  {
    assert OriginForm().RecordForm?;
    hide *;
    OriginSettles(root);
    OriginOrder(root, e);
    Refusal(OriginForm(), [
      Why(RequiredRead(root, Ascii("domain"), AsText)),
      Why(RequiredRead(root, Ascii("is_external"), AsBool)),
      Why(Optional(MapGet(root, Ascii("peer_address")), AsText))], root, e);
  }

  /** The schema of an OwnerRef, in the order its fields are read. */
  function OwnerRefForm(): Form {
    RecordForm([
      Demand(KindName(), true, WordForm({UserWord(), OrganizationWord()})),
      Demand(IdName(), true, TextForm),
      Demand(DisplayNameName(), true, TextForm),
      Demand(HandleName(), true, TextForm),
      Demand(OriginDomainName(), true, TextForm)
    ])
  }

  lemma OwnerRefOrder(root: Value, e: Error)
    ensures OwnerRefOf(root) == Err(e) <==> FirstOf([
      Why(RequiredRead(root, Ascii("kind"), AsKind)),
      Why(RequiredRead(root, Ascii("id"), AsText)),
      Why(RequiredRead(root, Ascii("display_name"), AsText)),
      Why(RequiredRead(root, Ascii("handle"), AsText)),
      Why(RequiredRead(root, Ascii("origin_domain"), AsText))]) == Some(e)
  {
    First5(
      Why(RequiredRead(root, Ascii("kind"), AsKind)),
      Why(RequiredRead(root, Ascii("id"), AsText)),
      Why(RequiredRead(root, Ascii("display_name"), AsText)),
      Why(RequiredRead(root, Ascii("handle"), AsText)),
      Why(RequiredRead(root, Ascii("origin_domain"), AsText)));
    hide MapGet, Require, Ascii, FirstOf, AsText, AsMember, OwnerKinds;
  }

  lemma OwnerRefSettles(root: Value)
    ensures AllSettle(OwnerRefForm().demands, root, [
      Why(RequiredRead(root, Ascii("kind"), AsKind)),
      Why(RequiredRead(root, Ascii("id"), AsText)),
      Why(RequiredRead(root, Ascii("display_name"), AsText)),
      Why(RequiredRead(root, Ascii("handle"), AsText)),
      Why(RequiredRead(root, Ascii("origin_domain"), AsText))])
  {
    var ds := OwnerRefForm().demands;
    ScalarsJudge();
    OwnerKindsListed();
    WordsJudge(OwnerKinds(), AsKind);
    KindBytes();
    IdBytes();
    DisplayNameBytes();
    HandleBytes();
    OriginDomainBytes();
    hide MapGet, RequiredRead, Optional, Ascii, Judges, Settles, Why, AsText, AsMember, OwnerKinds, KindName,
        IdName, DisplayNameName, HandleName, OriginDomainName, UserWord, OrganizationWord;
    RequiredFault(KindName(), WordForm({UserWord(), OrganizationWord()}), root, AsKind);
    RequiredFault(IdName(), TextForm, root, AsText);
    RequiredFault(DisplayNameName(), TextForm, root, AsText);
    RequiredFault(HandleName(), TextForm, root, AsText);
    RequiredFault(OriginDomainName(), TextForm, root, AsText);
  }

  lemma OwnerRefFault(root: Value, e: Error)
    ensures OwnerRefOf(root) == Err(e) <==> Fault(OwnerRefForm(), root, e)
  {
    assert OwnerRefForm().RecordForm?;
    hide *;
    OwnerRefSettles(root);
    OwnerRefOrder(root, e);
    Refusal(OwnerRefForm(), [
      Why(RequiredRead(root, Ascii("kind"), AsKind)),
      Why(RequiredRead(root, Ascii("id"), AsText)),
      Why(RequiredRead(root, Ascii("display_name"), AsText)),
      Why(RequiredRead(root, Ascii("handle"), AsText)),
      Why(RequiredRead(root, Ascii("origin_domain"), AsText))], root, e);
  }

  function AsOwners(v: Value): Result<seq<OwnerRef>> {
    DecArray(v, OwnerRefOf)
  }

  function NameDemands(): (ds: seq<Demand>)
    ensures |ds| == 6
  {
    [
      Demand(IdName(), true, TextForm),
      Demand(SlugName(), true, TextForm),
      Demand(OriginDomainName(), true, TextForm),
      Demand(NameName(), true, TextForm),
      Demand(BlurbName(), true, TextForm),
      Demand(DescriptionName(), true, TextForm)
    ]
  }

  function NameWhys(root: Value): (ws: seq<Option<Error>>)
    ensures |ws| == 6
  {
    [
      Why(RequiredRead(root, Ascii("id"), AsText)),
      Why(RequiredRead(root, Ascii("slug"), AsText)),
      Why(RequiredRead(root, Ascii("origin_domain"), AsText)),
      Why(RequiredRead(root, Ascii("name"), AsText)),
      Why(RequiredRead(root, Ascii("blurb"), AsText)),
      Why(RequiredRead(root, Ascii("description"), AsText))
    ]
  }

  lemma NameOrder(rt: Runtime, root: Value)
    ensures Why(GatheringNames(rt, root)) == FirstOf(NameWhys(root))
  {
    First6(
      Why(RequiredRead(root, Ascii("id"), AsText)),
      Why(RequiredRead(root, Ascii("slug"), AsText)),
      Why(RequiredRead(root, Ascii("origin_domain"), AsText)),
      Why(RequiredRead(root, Ascii("name"), AsText)),
      Why(RequiredRead(root, Ascii("blurb"), AsText)),
      Why(RequiredRead(root, Ascii("description"), AsText)));
    hide MapGet, Require, Ascii, FirstOf, AsText;
  }

  lemma NamesSettle(rt: Runtime, root: Value)
    ensures AllSettle(NameDemands(), root, NameWhys(root))
  {
    ScalarsJudge();
    IdBytes();
    SlugBytes();
    OriginDomainBytes();
    NameBytes();
    BlurbBytes();
    DescriptionBytes();
    RequiredFault(IdName(), TextForm, root, AsText);
    RequiredFault(SlugName(), TextForm, root, AsText);
    RequiredFault(OriginDomainName(), TextForm, root, AsText);
    RequiredFault(NameName(), TextForm, root, AsText);
    RequiredFault(BlurbName(), TextForm, root, AsText);
    RequiredFault(DescriptionName(), TextForm, root, AsText);
    hide MapGet, RequiredRead, Optional, Ascii, Judges, Settles, Why, IdName, SlugName, OriginDomainName, NameName,
        BlurbName, DescriptionName, AsText;
  }

  function CountDemands(rt: Runtime): (ds: seq<Demand>)
    ensures |ds| == 5
  {
    [
      Demand(OwnersName(), true, ListForm(OwnerRefForm())),
      Demand(MemberCountName(), true, UintForm),
      Demand(EventCountName(), true, UintForm),
      Demand(NextEventAtName(), false, TimeForm(rt.parseTime)),
      Demand(PublishEventsName(), true, WordForm({UnsetWord(), InWord(), OutWord()}))
    ]
  }

  function CountWhys(root: Value, time: Value -> Result<int>): (ws: seq<Option<Error>>)
    ensures |ws| == 5
  {
    [
      Why(RequiredRead(root, Ascii("owners"), AsOwners)),
      Why(RequiredRead(root, Ascii("member_count"), AsU64)),
      Why(RequiredRead(root, Ascii("event_count"), AsU64)),
      Why(Optional(MapGet(root, Ascii("next_event_at")), time)),
      Why(RequiredRead(root, Ascii("publish_events"), AsSetting))
    ]
  }

  lemma CountOrder(rt: Runtime, root: Value, time: Value -> Result<int>)
    requires forall x :: time(x) == AsTimestamp(rt, x)
    ensures Why(GatheringCounts(rt, root)) == FirstOf(CountWhys(root, time))
  {
    First5(
      Why(RequiredRead(root, Ascii("owners"), AsOwners)),
      Why(RequiredRead(root, Ascii("member_count"), AsU64)),
      Why(RequiredRead(root, Ascii("event_count"), AsU64)),
      Why(Optional(MapGet(root, Ascii("next_event_at")), time)),
      Why(RequiredRead(root, Ascii("publish_events"), AsSetting)));
    hide MapGet, Require, Ascii, FirstOf, AsU64, DecArray, OwnerRefOf, AsMember, PublishSettings, AsTimestamp;
  }

  lemma CountsSettle(rt: Runtime, root: Value, time: Value -> Result<int>)
    requires forall x :: time(x) == AsTimestamp(rt, x)
    ensures AllSettle(CountDemands(rt), root, CountWhys(root, time))
  {
    ScalarsJudge();
    PublishSettingsListed();
    WordsJudge(PublishSettings(), AsSetting);
    TimesJudge(rt, time);
    OwnersJudged();
    OwnersBytes();
    MemberCountBytes();
    EventCountBytes();
    NextEventAtBytes();
    PublishEventsBytes();
    RequiredFault(OwnersName(), ListForm(OwnerRefForm()), root, AsOwners);
    RequiredFault(MemberCountName(), UintForm, root, AsU64);
    RequiredFault(EventCountName(), UintForm, root, AsU64);
    OptionalFault(NextEventAtName(), TimeForm(rt.parseTime), root, time);
    RequiredFault(PublishEventsName(), WordForm({UnsetWord(), InWord(), OutWord()}), root, AsSetting);
    hide MapGet, RequiredRead, Optional, Ascii, Judges, Settles, Why, OwnersName, MemberCountName, EventCountName,
        NextEventAtName, PublishEventsName, AsU64, AsOwners, AsSetting, PublishSettings, UnsetWord, InWord,
            OutWord, OwnerRefForm;
  }

  function PartDemands(rt: Runtime): (ds: seq<Demand>)
    ensures |ds| == 5
  {
    [
      Demand(PublishName(), true, PublishDecisionForm()),
      Demand(OriginName(), true, OriginForm()),
      Demand(ViewerName(), true, ViewerContextForm()),
      Demand(CreatedAtName(), true, TimeForm(rt.parseTime)),
      Demand(UpdatedAtName(), true, TimeForm(rt.parseTime))
    ]
  }

  function PartWhys(root: Value, time: Value -> Result<int>): (ws: seq<Option<Error>>)
    ensures |ws| == 5
  {
    [
      Why(RequiredRead(root, Ascii("publish"), PublishDecisionOf)),
      Why(RequiredRead(root, Ascii("origin"), OriginOf)),
      Why(RequiredRead(root, Ascii("viewer"), ViewerContextOf)),
      Why(RequiredRead(root, Ascii("created_at"), time)),
      Why(RequiredRead(root, Ascii("updated_at"), time))
    ]
  }

  lemma PartOrder(rt: Runtime, root: Value, time: Value -> Result<int>)
    requires forall x :: time(x) == AsTimestamp(rt, x)
    ensures Why(GatheringParts(rt, root)) == FirstOf(PartWhys(root, time))
  {
    First5(
      Why(RequiredRead(root, Ascii("publish"), PublishDecisionOf)),
      Why(RequiredRead(root, Ascii("origin"), OriginOf)),
      Why(RequiredRead(root, Ascii("viewer"), ViewerContextOf)),
      Why(RequiredRead(root, Ascii("created_at"), time)),
      Why(RequiredRead(root, Ascii("updated_at"), time)));
    hide MapGet, Require, Ascii, FirstOf, OriginOf, PublishDecisionOf, ViewerContextOf, AsTimestamp;
  }

  lemma PartsSettle(rt: Runtime, root: Value, time: Value -> Result<int>)
    requires forall x :: time(x) == AsTimestamp(rt, x)
    ensures AllSettle(PartDemands(rt), root, PartWhys(root, time))
  {
    ScalarsJudge();
    TimesJudge(rt, time);
    PartsJudged();
    PublishBytes();
    OriginBytes();
    ViewerBytes();
    CreatedAtBytes();
    UpdatedAtBytes();
    RequiredFault(PublishName(), PublishDecisionForm(), root, PublishDecisionOf);
    RequiredFault(OriginName(), OriginForm(), root, OriginOf);
    RequiredFault(ViewerName(), ViewerContextForm(), root, ViewerContextOf);
    RequiredFault(CreatedAtName(), TimeForm(rt.parseTime), root, time);
    RequiredFault(UpdatedAtName(), TimeForm(rt.parseTime), root, time);
    hide MapGet, RequiredRead, Optional, Ascii, Judges, Settles, Why, PublishName, OriginName, ViewerName,
        CreatedAtName, UpdatedAtName, OriginOf, PublishDecisionOf, ViewerContextOf, PublishDecisionForm,
            OriginForm, ViewerContextForm;
  }

  lemma OwnersJudged()
    ensures Judges(ListForm(OwnerRefForm()), AsOwners)
  {
    hide Fault, OwnerRefOf, OwnerRefForm, DecArray;
    forall v, e
      ensures OwnerRefOf(v) == Err(e) <==> Fault(OwnerRefForm(), v, e)
    {
      OwnerRefFault(v, e);
    }
    ListsJudge(OwnerRefForm(), OwnerRefOf, AsOwners);
  }

  lemma PartsJudged()
    ensures Judges(PublishDecisionForm(), PublishDecisionOf) && Judges(OriginForm(), OriginOf)
    ensures Judges(ViewerContextForm(), ViewerContextOf)
  {
    hide Fault, PublishDecisionOf, OriginOf, ViewerContextOf, PublishDecisionForm, OriginForm, ViewerContextForm;
    forall v, e
      ensures PublishDecisionOf(v) == Err(e) <==> Fault(PublishDecisionForm(), v, e)
      ensures OriginOf(v) == Err(e) <==> Fault(OriginForm(), v, e)
      ensures ViewerContextOf(v) == Err(e) <==> Fault(ViewerContextForm(), v, e)
    {
      PublishDecisionFault(v, e);
      OriginFault(v, e);
      ViewerContextFault(v, e);
    }
  }

  /** The schema of a Gathering, in the order its fields are read. */
  function GatheringForm(rt: Runtime): Form {
    RecordForm(NameDemands() + CountDemands(rt) + PartDemands(rt))
  }

  lemma GroupsOrder(rt: Runtime, root: Value)
    ensures Why(GatheringOf(rt, root))
         == if GatheringNames(rt, root).Err? then Why(GatheringNames(rt, root))
            else if GatheringCounts(rt, root).Err? then Why(GatheringCounts(rt, root))
            else Why(GatheringParts(rt, root))
  {
    hide GatheringNames, GatheringCounts, GatheringParts;
  }

  lemma GatheringFault(rt: Runtime, root: Value, e: Error)
    ensures GatheringOf(rt, root) == Err(e) <==> Fault(GatheringForm(rt), root, e)
  {
    var time := (x: Value) => AsTimestamp(rt, x);
    var names, counts, parts := NameWhys(root), CountWhys(root, time), PartWhys(root, time);
    assert GatheringOf(rt, root) == Err(e) <==> Why(GatheringOf(rt, root)) == Some(e);
    hide AsTimestamp, NameDemands, CountDemands, PartDemands, NameWhys, CountWhys, PartWhys, GatheringOf,
        GatheringNames,
      GatheringCounts, GatheringParts, AllSettle, FirstOf, Fault;
    GroupsOrder(rt, root);
    NameOrder(rt, root);
    CountOrder(rt, root, time);
    PartOrder(rt, root, time);
    FirstConcat(names, counts);
    FirstConcat(names + counts, parts);
    NamesSettle(rt, root);
    CountsSettle(rt, root, time);
    PartsSettle(rt, root, time);
    SettleConcat(NameDemands(), CountDemands(rt), root, names, counts);
    SettleConcat(NameDemands() + CountDemands(rt), PartDemands(rt), root, names + counts, parts);
    Refusal(GatheringForm(rt), names + counts + parts, root, e);
  }

  // The decoders.

  method CsilDecGatheringNames(rt: Runtime, root: Value)
      returns (r: Result<(seq<Byte>, seq<Byte>, seq<Byte>, seq<Byte>, seq<Byte>, seq<Byte>)>)
    ensures r == GatheringNames(rt, root)
    ensures forall g: Gathering ::
      r == Ok((g.id, g.slug, g.originDomain, g.name, g.blurb, g.description))
      <==> HoldsNames(root, g.id, g.slug, g.originDomain, g.name, g.blurb, g.description)
  {
    forall g: Gathering
      ensures GatheringNames(rt, root) == Ok((g.id, g.slug, g.originDomain, g.name, g.blurb, g.description))
          <==> HoldsNames(root, g.id, g.slug, g.originDomain, g.name, g.blurb, g.description)
    {
      NamesExact(rt, root, g);
    }
    hide MapGet, Require, Ascii, AsText;
    var idField := Require(root, Ascii("id"));
    if idField.Err? {
      return Err(idField.error);
    }
    var id := AsText(idField.value);
    if id.Err? {
      return Err(id.error);
    }
    var slugField := Require(root, Ascii("slug"));
    if slugField.Err? {
      return Err(slugField.error);
    }
    var slug := AsText(slugField.value);
    if slug.Err? {
      return Err(slug.error);
    }
    var originDomainField := Require(root, Ascii("origin_domain"));
    if originDomainField.Err? {
      return Err(originDomainField.error);
    }
    var originDomain := AsText(originDomainField.value);
    if originDomain.Err? {
      return Err(originDomain.error);
    }
    var nameField := Require(root, Ascii("name"));
    if nameField.Err? {
      return Err(nameField.error);
    }
    var name := AsText(nameField.value);
    if name.Err? {
      return Err(name.error);
    }
    var blurbField := Require(root, Ascii("blurb"));
    if blurbField.Err? {
      return Err(blurbField.error);
    }
    var blurb := AsText(blurbField.value);
    if blurb.Err? {
      return Err(blurb.error);
    }
    var descriptionField := Require(root, Ascii("description"));
    if descriptionField.Err? {
      return Err(descriptionField.error);
    }
    var description := AsText(descriptionField.value);
    if description.Err? {
      return Err(description.error);
    }
    r := Ok((id.value, slug.value, originDomain.value, name.value, blurb.value, description.value));
  }

  method CsilDecGatheringCounts(rt: Runtime, root: Value)
      returns (r: Result<(seq<OwnerRef>, U64, U64, Option<int>, seq<Byte>)>)
    ensures r == GatheringCounts(rt, root)
    ensures forall g: Gathering ::
      r == Ok((g.owners, g.memberCount, g.eventCount, g.nextEventAt, g.publishEvents))
      <==> HoldsCounts(rt, root, g.owners, g.memberCount, g.eventCount, g.nextEventAt, g.publishEvents)
  {
    forall g: Gathering
      ensures GatheringCounts(rt, root) == Ok((g.owners, g.memberCount, g.eventCount, g.nextEventAt, g.publishEvents))
          <==> HoldsCounts(rt, root, g.owners, g.memberCount, g.eventCount, g.nextEventAt, g.publishEvents)
    {
      CountsExact(rt, root, g);
    }
    hide MapGet, Require, Ascii, AsU64, AsTimestamp, AsMember, PublishSettings, OwnerRefOf, DecArray;
    var ownersField := Require(root, Ascii("owners"));
    if ownersField.Err? {
      return Err(ownersField.error);
    }
    var owners := CborDecArray(ownersField.value, OwnerRefOf);
    if owners.Err? {
      return Err(owners.error);
    }
    var memberCountField := Require(root, Ascii("member_count"));
    if memberCountField.Err? {
      return Err(memberCountField.error);
    }
    var memberCount := AsU64(memberCountField.value);
    if memberCount.Err? {
      return Err(memberCount.error);
    }
    var eventCountField := Require(root, Ascii("event_count"));
    if eventCountField.Err? {
      return Err(eventCountField.error);
    }
    var eventCount := AsU64(eventCountField.value);
    if eventCount.Err? {
      return Err(eventCount.error);
    }
    var nextEventAt := None;
    var nextEventAtField := MapGet(root, Ascii("next_event_at"));
    if nextEventAtField.Some? {
      var val := AsTimestamp(rt, nextEventAtField.value);
      if val.Err? {
        return Err(val.error);
      }
      nextEventAt := Some(val.value);
    }
    var publishEventsField := Require(root, Ascii("publish_events"));
    if publishEventsField.Err? {
      return Err(publishEventsField.error);
    }
    var publishEvents := AsMember(publishEventsField.value, PublishSettings());
    if publishEvents.Err? {
      return Err(publishEvents.error);
    }
    r := Ok((owners.value, memberCount.value, eventCount.value, nextEventAt, publishEvents.value));
  }

  method CsilDecGatheringParts(rt: Runtime, root: Value)
      returns (r: Result<(PublishDecision, Origin, ViewerContext, int, int)>)
    ensures r == GatheringParts(rt, root)
    ensures forall g: Gathering ::
      r == Ok((g.publish, g.origin, g.viewer, g.createdAt, g.updatedAt))
      <==> HoldsParts(rt, root, g.publish, g.origin, g.viewer, g.createdAt, g.updatedAt)
  {
    forall g: Gathering
      ensures GatheringParts(rt, root) == Ok((g.publish, g.origin, g.viewer, g.createdAt, g.updatedAt))
          <==> HoldsParts(rt, root, g.publish, g.origin, g.viewer, g.createdAt, g.updatedAt)
    {
      PartsExact(rt, root, g);
    }
    hide MapGet, Require, Ascii, PublishDecisionOf, OriginOf, ViewerContextOf, AsTimestamp;
    var publishField := Require(root, Ascii("publish"));
    if publishField.Err? {
      return Err(publishField.error);
    }
    var publish := PublishDecisionOf(publishField.value);
    if publish.Err? {
      return Err(publish.error);
    }
    var originField := Require(root, Ascii("origin"));
    if originField.Err? {
      return Err(originField.error);
    }
    var origin := OriginOf(originField.value);
    if origin.Err? {
      return Err(origin.error);
    }
    var viewerField := Require(root, Ascii("viewer"));
    if viewerField.Err? {
      return Err(viewerField.error);
    }
    var viewer := ViewerContextOf(viewerField.value);
    if viewer.Err? {
      return Err(viewer.error);
    }
    var createdAtField := Require(root, Ascii("created_at"));
    if createdAtField.Err? {
      return Err(createdAtField.error);
    }
    var createdAt := AsTimestamp(rt, createdAtField.value);
    if createdAt.Err? {
      return Err(createdAt.error);
    }
    var updatedAtField := Require(root, Ascii("updated_at"));
    if updatedAtField.Err? {
      return Err(updatedAtField.error);
    }
    var updatedAt := AsTimestamp(rt, updatedAtField.value);
    if updatedAt.Err? {
      return Err(updatedAt.error);
    }
    r := Ok((publish.value, origin.value, viewer.value, createdAt.value, updatedAt.value));
  }

  /** The decoder reads the fields in schema order, in three groups, and stops at the first error. */
  method CsilDecGathering(rt: Runtime, root: Value) returns (r: Result<Gathering>)
    ensures r == GatheringOf(rt, root)
    ensures forall g :: r == Ok(g) <==> HoldsGathering(rt, root, g)
    ensures forall e :: r == Err(e) <==> Fault(GatheringForm(rt), root, e)
  {
    GatheringFaults(rt, root);
    hide Fault, GatheringForm;
    forall g
      ensures GatheringOf(rt, root) == Ok(g) <==> HoldsGathering(rt, root, g)
    {
      GatheringExact(rt, root, g);
    }
    hide GatheringNames, GatheringCounts, GatheringParts;
    var names := CsilDecGatheringNames(rt, root);
    if names.Err? {
      return Err(names.error);
    }
    var counts := CsilDecGatheringCounts(rt, root);
    if counts.Err? {
      return Err(counts.error);
    }
    var parts := CsilDecGatheringParts(rt, root);
    if parts.Err? {
      return Err(parts.error);
    }
    var (id, slug, originDomain, name, blurb, description) := names.value;
    var (owners, memberCount, eventCount, nextEventAt, publishEvents) := counts.value;
    var (publish, origin, viewer, createdAt, updatedAt) := parts.value;
    r := Ok(Gathering(id, slug, originDomain, name, blurb, description, owners, memberCount, eventCount, nextEventAt,
                      publishEvents, publish, origin, viewer, createdAt, updatedAt));
  }

  // The list.

  ghost predicate HoldsGatheringList(rt: Runtime, root: Value, l: GatheringList) {
    && Alike(root, UintField("total", Some(l.total)))
    && MapGet(root, Ascii("gatherings")).Some?
    && var v := MapGet(root, Ascii("gatherings")).value;
       && v.Array? && |v.items| == |l.gatherings|
       && forall i | 0 <= i < |l.gatherings| :: HoldsGathering(rt, v.items[i], l.gatherings[i])
  }

  lemma GatheringsExact(rt: Runtime, v: Value, gs: seq<Gathering>, read: Value -> Result<Gathering>)
    requires forall x :: read(x) == GatheringOf(rt, x)
    ensures DecArray(v, read) == Ok(gs)
        <==> v.Array? && |v.items| == |gs| && forall i | 0 <= i < |gs| :: HoldsGathering(rt, v.items[i], gs[i])
  {
    hide GatheringOf, HoldsGathering, DecArray;
    DecArrayExact(v, read, gs);
    if v.Array? && |v.items| == |gs| {
      forall i | 0 <= i < |gs|
        ensures read(v.items[i]) == Ok(gs[i]) <==> HoldsGathering(rt, v.items[i], gs[i])
      {
        GatheringExact(rt, v.items[i], gs[i]);
      }
    }
  }

  /** The maps read as this list. */
  lemma GatheringListExact(rt: Runtime, root: Value, l: GatheringList)
    ensures GatheringListOf(rt, root) == Ok(l) <==> HoldsGatheringList(rt, root, l)
  {
    UintAlike(root, "total", Some(l.total));
    hide Alike, MapGet, Ascii, AsU64, UintField, DecArray, GatheringOf, HoldsGathering;
    if MapGet(root, Ascii("gatherings")).Some? {
      GatheringsExact(rt, MapGet(root, Ascii("gatherings")).value, l.gatherings, (x: Value) => GatheringOf(rt, x));
    }
  }

  function GatheringListForm(rt: Runtime): Form {
    RecordForm([
      Demand(GatheringsName(), true, ListForm(GatheringForm(rt))),
      Demand(TotalName(), true, UintForm)
    ])
  }

  lemma GatheringsJudged(rt: Runtime, read: Value -> Result<Gathering>, all: Value -> Result<seq<Gathering>>)
    requires (forall x :: read(x) == GatheringOf(rt, x)) && forall v :: all(v) == DecArray(v, read)
    ensures Judges(ListForm(GatheringForm(rt)), all)
  {
    hide Fault, GatheringOf, GatheringForm, DecArray;
    forall v, e
      ensures read(v) == Err(e) <==> Fault(GatheringForm(rt), v, e)
    {
      GatheringFault(rt, v, e);
    }
    ListsJudge(GatheringForm(rt), read, all);
  }

  lemma ListOrder(rt: Runtime, root: Value, all: Value -> Result<seq<Gathering>>)
    requires forall v :: all(v) == DecArray(v, (x: Value) => GatheringOf(rt, x))
    ensures Why(GatheringListOf(rt, root))
         == FirstOf([Why(RequiredRead(root, Ascii("gatherings"), all)), Why(RequiredRead(root, Ascii("total"),
             AsU64))])
  {
    First2(Why(RequiredRead(root, Ascii("gatherings"), all)), Why(RequiredRead(root, Ascii("total"), AsU64)));
    hide MapGet, Require, Ascii, AsU64, DecArray, GatheringOf, FirstOf;
  }

  lemma GatheringListFault(rt: Runtime, root: Value, e: Error)
    ensures GatheringListOf(rt, root) == Err(e) <==> Fault(GatheringListForm(rt), root, e)
  {
    var read := (x: Value) => GatheringOf(rt, x);
    var all := (v: Value) => DecArray(v, read);
    var form := GatheringListForm(rt);
    assert GatheringListOf(rt, root) == Err(e) <==> Why(GatheringListOf(rt, root)) == Some(e);
    assert form.demands == [Demand(GatheringsName(), true, ListForm(GatheringForm(rt))),
                            Demand(TotalName(), true, UintForm)];
    GatheringsBytes();
    TotalBytes();
    ScalarsJudge();
    hide MapGet, RequiredRead, Ascii, Judges, Settles, Fault, GatheringListOf, GatheringListForm, FirstOf, Why, AsU64,
      GatheringsName, TotalName, GatheringForm, GatheringOf, DecArray;
    GatheringsJudged(rt, read, all);
    RequiredFault(GatheringsName(), ListForm(GatheringForm(rt)), root, all);
    RequiredFault(TotalName(), UintForm, root, AsU64);
    ListOrder(rt, root, all);
    Refusal(form, [
      Why(RequiredRead(root, Ascii("gatherings"), all)),
      Why(RequiredRead(root, Ascii("total"), AsU64))], root, e);
  }

  lemma GatheringListFaults(rt: Runtime, root: Value)
    ensures forall e :: GatheringListOf(rt, root) == Err(e) <==> Fault(GatheringListForm(rt), root, e)
  {
    hide Fault, GatheringListOf, GatheringListForm;
    forall e
      ensures GatheringListOf(rt, root) == Err(e) <==> Fault(GatheringListForm(rt), root, e)
    {
      GatheringListFault(rt, root, e);
    }
  }

  lemma GatheringFaults(rt: Runtime, root: Value)
    ensures forall e :: GatheringOf(rt, root) == Err(e) <==> Fault(GatheringForm(rt), root, e)
  {
    hide Fault, GatheringOf, GatheringForm;
    forall e
      ensures GatheringOf(rt, root) == Err(e) <==> Fault(GatheringForm(rt), root, e)
    {
      GatheringFault(rt, root, e);
    }
  }

  method CsilDecGatheringList(rt: Runtime, root: Value) returns (r: Result<GatheringList>)
    ensures r == GatheringListOf(rt, root)
    ensures forall l :: r == Ok(l) <==> HoldsGatheringList(rt, root, l)
    ensures forall e :: r == Err(e) <==> Fault(GatheringListForm(rt), root, e)
  {
    GatheringListFaults(rt, root);
    hide Fault, GatheringListForm;
    forall l
      ensures GatheringListOf(rt, root) == Ok(l) <==> HoldsGatheringList(rt, root, l)
    {
      GatheringListExact(rt, root, l);
    }
    hide MapGet, Require, Ascii, AsU64, GatheringOf, DecArray;
    var gatheringsField := Require(root, Ascii("gatherings"));
    if gatheringsField.Err? {
      return Err(gatheringsField.error);
    }
    var gatherings := CborDecArray(gatheringsField.value, (x: Value) => GatheringOf(rt, x));
    if gatherings.Err? {
      return Err(gatherings.error);
    }
    var totalField := Require(root, Ascii("total"));
    if totalField.Err? {
      return Err(totalField.error);
    }
    var total := AsU64(totalField.value);
    if total.Err? {
      return Err(total.error);
    }
    r := Ok(GatheringList(gatherings.value, total.value));
  }
}
