/** A list record of nested records: gatherings with their owners, origin, publishing decision and
    viewer context, and timestamps as tagged text. */
module Gatherings {
  import opened Machine
  import opened CborTree
  import opened Encoder
  import opened Parser
  import opened KeyOrder
  import opened Fields
  import opened Collections
  import opened Records

  function PublishSources(): set<seq<Byte>> {
    {Ascii("instance"), Ascii("organization"), Ascii("gathering")}
  }

  function PublishSettings(): set<seq<Byte>> {
    {Ascii("unset"), Ascii("in"), Ascii("out")}
  }

  function OwnerKinds(): set<seq<Byte>> {
    {Ascii("user"), Ascii("organization")}
  }

  /** An instant whose text form is valid and parses back to it. */
  function AsSource(v: Value): Result<seq<Byte>> {
    AsMember(v, PublishSources())
  }

  function AsSetting(v: Value): Result<seq<Byte>> {
    AsMember(v, PublishSettings())
  }

  function AsKind(v: Value): Result<seq<Byte>> {
    AsMember(v, OwnerKinds())
  }

  predicate ValidTime(rt: Runtime, t: int) {
    ValidText(rt, rt.formatTime(t)) && rt.parseTime(rt.formatTime(t)) == Some(t)
  }

  lemma TimeTravels(rt: Runtime, t: int)
    requires ValidTime(rt, t)
    ensures Sendable(rt, EncTimestamp(rt, t), 1) && AsTimestamp(rt, Norm(EncTimestamp(rt, t))) == Ok(t)
  {
    var text := Text(rt.formatTime(t));
    LeafSendable(rt, text);
    assert Kids(EncTimestamp(rt, t)) == [text] && [text][1..] == [];
    Single(rt, text);
    NormView(EncTimestamp(rt, t));
    BuildKids(Norm(EncTimestamp(rt, t)));
  }

  // ViewerContext.

  datatype ViewerContext = ViewerContext(
    isAdmin: bool,
    isOwner: bool,
    isOrganizer: bool,
    isPresenter: bool,
    isMember: bool,
    hasJoined: bool,
    canEdit: bool,
    canDelete: bool,
    canManageMembers: bool)

  function ViewerContextFields(c: ViewerContext): (fs: seq<Field>)
    ensures |fs| == 9
  {
    [
      BoolField("can_edit", c.canEdit),
      BoolField("is_admin", c.isAdmin),
      BoolField("is_owner", c.isOwner),
      BoolField("is_member", c.isMember),
      BoolField("can_delete", c.canDelete),
      BoolField("has_joined", c.hasJoined),
      BoolField("is_organizer", c.isOrganizer),
      BoolField("is_presenter", c.isPresenter),
      BoolField("can_manage_members", c.canManageMembers)
    ]
  }

  function ViewerContextValue(c: ViewerContext): Value {
    Map(Present(ViewerContextFields(c)))
  }

  function ViewerContextOf(root: Value): Result<ViewerContext> {
    var isAdminField :- Require(root, Ascii("is_admin"));
    var isAdmin :- AsBool(isAdminField);
    var isOwnerField :- Require(root, Ascii("is_owner"));
    var isOwner :- AsBool(isOwnerField);
    var isOrganizerField :- Require(root, Ascii("is_organizer"));
    var isOrganizer :- AsBool(isOrganizerField);
    var isPresenterField :- Require(root, Ascii("is_presenter"));
    var isPresenter :- AsBool(isPresenterField);
    var isMemberField :- Require(root, Ascii("is_member"));
    var isMember :- AsBool(isMemberField);
    var hasJoinedField :- Require(root, Ascii("has_joined"));
    var hasJoined :- AsBool(hasJoinedField);
    var canEditField :- Require(root, Ascii("can_edit"));
    var canEdit :- AsBool(canEditField);
    var canDeleteField :- Require(root, Ascii("can_delete"));
    var canDelete :- AsBool(canDeleteField);
    var canManageMembersField :- Require(root, Ascii("can_manage_members"));
    var canManageMembers :- AsBool(canManageMembersField);
    Ok(ViewerContext(isAdmin, isOwner, isOrganizer, isPresenter, isMember, hasJoined, canEdit, canDelete,
        canManageMembers))
  }

  lemma ViewerContextKeysIncrease(c: ViewerContext)
    ensures Increasing(ViewerContextFields(c)) && AsciiKeys(ViewerContextFields(c))
    ensures CanonicalKeys(Present(ViewerContextFields(c)))
  {
    var fs := ViewerContextFields(c);
    NameOrder("can_edit", "is_admin", 0);
    NameOrder("is_admin", "is_owner", 3);
    NameOrder("is_owner", "is_member", 0);
    NameOrder("is_member", "can_delete", 0);
    NameOrder("can_delete", "has_joined", 0);
    NameOrder("has_joined", "is_organizer", 0);
    NameOrder("is_organizer", "is_presenter", 3);
    NameOrder("is_presenter", "can_manage_members", 0);
    hide LengthFirst, Present, CanonicalKeys;
    NeighboursSuffice(fs);
    EmittedKeysIncrease(fs);
  }

  lemma ViewerContextRead(c: ViewerContext, root: Value)
    requires Holds(root, ViewerContextFields(c))
    ensures ViewerContextOf(root) == Ok(c)
  {
    hide Holds, HoldsAlike, ViewerContextOf, ViewerContextFields;
    HoldsMeansAlike(root, ViewerContextFields(c));
    ViewerContextExact(c, root);
  }

  lemma ViewerContextLeaves(rt: Runtime, c: ViewerContext)
    ensures Increasing(ViewerContextFields(c)) && LeafFields(rt, ViewerContextFields(c))
  {
    ViewerContextKeysIncrease(c);
    hide Increasing, AsciiKeys, CanonicalKeys, Present, Ascii, ValidText;
  }

  lemma ViewerContextTravels(rt: Runtime, c: ViewerContext)
    requires AcceptsAscii(rt)
    ensures Sendable(rt, ViewerContextValue(c), 1) && ViewerContextOf(Norm(ViewerContextValue(c))) == Ok(c)
  {
    var fs := ViewerContextFields(c);
    hide Norm, Increasing, LeafFields, FieldsSendable, Present, Holds, Sendable, ViewerContextOf,
      ViewerContextFields, AcceptsAscii;
    ViewerContextLeaves(rt, c);
    LeavesSendable(rt, fs);
    RecordSendable(rt, fs, 0);
    RecordHolds(fs);
    ViewerContextRead(c, Norm(ViewerContextValue(c)));
  }

  // PublishDecision.

  datatype PublishDecision = PublishDecision(
    publishing: bool,
    source: seq<Byte>,
    canOverride: bool)

  function PublishDecisionFields(d: PublishDecision): (fs: seq<Field>)
    ensures |fs| == 3
  {
    [
      TextField("source", Some(d.source)),
      BoolField("publishing", d.publishing),
      BoolField("can_override", d.canOverride)
    ]
  }

  function PublishDecisionValue(d: PublishDecision): Value {
    Map(Present(PublishDecisionFields(d)))
  }

  function PublishDecisionOf(root: Value): Result<PublishDecision> {
    var publishingField :- Require(root, Ascii("publishing"));
    var publishing :- AsBool(publishingField);
    var sourceField :- Require(root, Ascii("source"));
    var source :- AsMember(sourceField, PublishSources());
    var canOverrideField :- Require(root, Ascii("can_override"));
    var canOverride :- AsBool(canOverrideField);
    Ok(PublishDecision(publishing, source, canOverride))
  }

  lemma PublishDecisionKeysIncrease(d: PublishDecision)
    ensures Increasing(PublishDecisionFields(d)) && AsciiKeys(PublishDecisionFields(d))
    ensures CanonicalKeys(Present(PublishDecisionFields(d)))
  {
    var fs := PublishDecisionFields(d);
    NameOrder("source", "publishing", 0);
    NameOrder("publishing", "can_override", 0);
    hide LengthFirst, Present, CanonicalKeys;
    NeighboursSuffice(fs);
    EmittedKeysIncrease(fs);
  }

  predicate PublishDecisionValid(rt: Runtime, d: PublishDecision) {
    ValidText(rt, d.source)
  }

  /** The declared vocabulary: the encoder writes any text, the decoder takes only these. */
  predicate PublishDecisionDeclared(d: PublishDecision) {
    d.source in PublishSources()
  }

  lemma PublishDecisionRead(d: PublishDecision, root: Value)
    requires Holds(root, PublishDecisionFields(d))
    ensures PublishDecisionOf(root) == if PublishDecisionDeclared(d) then Ok(d) else Err(NotInEnum)
  {
    var fs := PublishDecisionFields(d);
    hide Norm, Holds, Ascii, MapGet, PublishSources;
    Held(root, fs, 0);
    Held(root, fs, 1);
    Held(root, fs, 2);
    NormPlain();
  }

  lemma PublishDecisionLeaves(rt: Runtime, d: PublishDecision)
    requires PublishDecisionValid(rt, d)
    ensures Increasing(PublishDecisionFields(d)) && LeafFields(rt, PublishDecisionFields(d))
  {
    PublishDecisionKeysIncrease(d);
    hide Increasing, AsciiKeys, CanonicalKeys, Present, Ascii, ValidText;
  }

  lemma PublishDecisionTravels(rt: Runtime, d: PublishDecision)
    requires AcceptsAscii(rt)
    requires PublishDecisionValid(rt, d)
    ensures Sendable(rt, PublishDecisionValue(d), 1)
    ensures PublishDecisionOf(Norm(PublishDecisionValue(d)))
         == if PublishDecisionDeclared(d) then Ok(d) else Err(NotInEnum)
  {
    var fs := PublishDecisionFields(d);
    hide Norm, Increasing, LeafFields, FieldsSendable, Present, Holds, Sendable, PublishDecisionOf,
      PublishDecisionFields, AcceptsAscii, PublishDecisionDeclared;
    PublishDecisionLeaves(rt, d);
    LeavesSendable(rt, fs);
    RecordSendable(rt, fs, 0);
    RecordHolds(fs);
    PublishDecisionRead(d, Norm(PublishDecisionValue(d)));
  }

  // Origin.

  datatype Origin = Origin(
    domain: seq<Byte>,
    isExternal: bool,
    peerAddress: Option<seq<Byte>>)

  function OriginFields(o: Origin): (fs: seq<Field>)
    ensures |fs| == 3
  {
    [
      TextField("domain", Some(o.domain)),
      BoolField("is_external", o.isExternal),
      TextField("peer_address", o.peerAddress)
    ]
  }

  function OriginValue(o: Origin): Value {
    Map(Present(OriginFields(o)))
  }

  function OriginOf(root: Value): Result<Origin> {
    var domainField :- Require(root, Ascii("domain"));
    var domain :- AsText(domainField);
    var isExternalField :- Require(root, Ascii("is_external"));
    var isExternal :- AsBool(isExternalField);
    var peerAddress :- Optional(MapGet(root, Ascii("peer_address")), AsText);
    Ok(Origin(domain, isExternal, peerAddress))
  }

  lemma OriginKeysIncrease(o: Origin)
    ensures Increasing(OriginFields(o)) && AsciiKeys(OriginFields(o))
    ensures CanonicalKeys(Present(OriginFields(o)))
  {
    var fs := OriginFields(o);
    NameOrder("domain", "is_external", 0);
    NameOrder("is_external", "peer_address", 0);
    hide LengthFirst, Present, CanonicalKeys;
    NeighboursSuffice(fs);
    EmittedKeysIncrease(fs);
  }

  predicate OriginValid(rt: Runtime, o: Origin) {
    && ValidText(rt, o.domain)
    && (o.peerAddress.Some? ==> ValidText(rt, o.peerAddress.value))
  }

  lemma OriginRead(o: Origin, root: Value)
    requires Holds(root, OriginFields(o))
    ensures OriginOf(root) == Ok(o)
  {
    hide Holds, HoldsAlike, OriginOf, OriginFields;
    HoldsMeansAlike(root, OriginFields(o));
    OriginExact(o, root);
  }

  lemma OriginLeaves(rt: Runtime, o: Origin)
    requires OriginValid(rt, o)
    ensures Increasing(OriginFields(o)) && LeafFields(rt, OriginFields(o))
  {
    OriginKeysIncrease(o);
    hide Increasing, AsciiKeys, CanonicalKeys, Present, Ascii, ValidText;
  }

  lemma OriginTravels(rt: Runtime, o: Origin)
    requires AcceptsAscii(rt)
    requires OriginValid(rt, o)
    ensures Sendable(rt, OriginValue(o), 1) && OriginOf(Norm(OriginValue(o))) == Ok(o)
  {
    var fs := OriginFields(o);
    hide Norm, Increasing, LeafFields, FieldsSendable, Present, Holds, Sendable, OriginOf, OriginFields, AcceptsAscii;
    OriginLeaves(rt, o);
    LeavesSendable(rt, fs);
    RecordSendable(rt, fs, 0);
    RecordHolds(fs);
    OriginRead(o, Norm(OriginValue(o)));
  }

  // OwnerRef.

  datatype OwnerRef = OwnerRef(
    kind: seq<Byte>,
    id: seq<Byte>,
    displayName: seq<Byte>,
    handle: seq<Byte>,
    originDomain: seq<Byte>)

  function OwnerRefFields(o: OwnerRef): (fs: seq<Field>)
    ensures |fs| == 5
  {
    [
      TextField("id", Some(o.id)),
      TextField("kind", Some(o.kind)),
      TextField("handle", Some(o.handle)),
      TextField("display_name", Some(o.displayName)),
      TextField("origin_domain", Some(o.originDomain))
    ]
  }

  function OwnerRefValue(o: OwnerRef): Value {
    Map(Present(OwnerRefFields(o)))
  }

  function OwnerRefOf(root: Value): Result<OwnerRef> {
    var kindField :- Require(root, Ascii("kind"));
    var kind :- AsMember(kindField, OwnerKinds());
    var idField :- Require(root, Ascii("id"));
    var id :- AsText(idField);
    var displayNameField :- Require(root, Ascii("display_name"));
    var displayName :- AsText(displayNameField);
    var handleField :- Require(root, Ascii("handle"));
    var handle :- AsText(handleField);
    var originDomainField :- Require(root, Ascii("origin_domain"));
    var originDomain :- AsText(originDomainField);
    Ok(OwnerRef(kind, id, displayName, handle, originDomain))
  }

  lemma OwnerRefKeysIncrease(o: OwnerRef)
    ensures Increasing(OwnerRefFields(o)) && AsciiKeys(OwnerRefFields(o))
    ensures CanonicalKeys(Present(OwnerRefFields(o)))
  {
    var fs := OwnerRefFields(o);
    NameOrder("id", "kind", 0);
    NameOrder("kind", "handle", 0);
    NameOrder("handle", "display_name", 0);
    NameOrder("display_name", "origin_domain", 0);
    hide LengthFirst, Present, CanonicalKeys;
    NeighboursSuffice(fs);
    EmittedKeysIncrease(fs);
  }

  predicate OwnerRefValid(rt: Runtime, o: OwnerRef) {
    && ValidText(rt, o.kind)
    && ValidText(rt, o.id)
    && ValidText(rt, o.displayName)
    && ValidText(rt, o.handle)
    && ValidText(rt, o.originDomain)
  }

  predicate OwnerRefDeclared(o: OwnerRef) {
    o.kind in OwnerKinds()
  }

  lemma OwnerRefRead(o: OwnerRef, root: Value)
    requires Holds(root, OwnerRefFields(o))
    ensures OwnerRefOf(root) == if OwnerRefDeclared(o) then Ok(o) else Err(NotInEnum)
  {
    var fs := OwnerRefFields(o);
    hide Norm, Holds, Ascii, MapGet, OwnerKinds;
    Held(root, fs, 0);
    Held(root, fs, 1);
    Held(root, fs, 2);
    Held(root, fs, 3);
    Held(root, fs, 4);
    NormPlain();
  }

  lemma OwnerRefLeaves(rt: Runtime, o: OwnerRef)
    requires OwnerRefValid(rt, o)
    ensures Increasing(OwnerRefFields(o)) && LeafFields(rt, OwnerRefFields(o))
  {
    OwnerRefKeysIncrease(o);
    hide Increasing, AsciiKeys, CanonicalKeys, Present, Ascii, ValidText;
  }

  lemma OwnerRefTravels(rt: Runtime, o: OwnerRef)
    requires AcceptsAscii(rt)
    requires OwnerRefValid(rt, o)
    ensures Sendable(rt, OwnerRefValue(o), 1)
    ensures OwnerRefOf(Norm(OwnerRefValue(o))) == if OwnerRefDeclared(o) then Ok(o) else Err(NotInEnum)
  {
    var fs := OwnerRefFields(o);
    hide Norm, Increasing, LeafFields, FieldsSendable, Present, Holds, Sendable, OwnerRefOf, OwnerRefFields,
      AcceptsAscii, OwnerRefDeclared;
    OwnerRefLeaves(rt, o);
    LeavesSendable(rt, fs);
    RecordSendable(rt, fs, 0);
    RecordHolds(fs);
    OwnerRefRead(o, Norm(OwnerRefValue(o)));
  }

  // The maps read as each of these small records, in any order and among any other entries.

  ghost predicate HoldsViewerContext(root: Value, c: ViewerContext) {
    HoldsAlike(root, ViewerContextFields(c))
  }

  ghost predicate ReadsBool(root: Value, key: string, b: bool) {
    Require(root, Ascii(key)).Ok? && AsBool(Require(root, Ascii(key)).value) == Ok(b)
  }

  ghost predicate ReadsViewer(root: Value, c: ViewerContext) {
    && ReadsBool(root, "is_admin", c.isAdmin)
    && ReadsBool(root, "is_owner", c.isOwner)
    && ReadsBool(root, "is_organizer", c.isOrganizer)
    && ReadsBool(root, "is_presenter", c.isPresenter)
    && ReadsBool(root, "is_member", c.isMember)
    && ReadsBool(root, "has_joined", c.hasJoined)
    && ReadsBool(root, "can_edit", c.canEdit)
    && ReadsBool(root, "can_delete", c.canDelete)
    && ReadsBool(root, "can_manage_members", c.canManageMembers)
  }

  lemma ViewerReadIf(c: ViewerContext, root: Value)
    requires ReadsViewer(root, c)
    ensures ViewerContextOf(root) == Ok(c)
  {
    hide MapGet, Require, Ascii, AsBool;
  }

  lemma ViewerReadOnlyIf(c: ViewerContext, root: Value)
    requires ViewerContextOf(root) == Ok(c)
    ensures ReadsViewer(root, c)
  {
    hide MapGet, Require, Ascii, AsBool;
  }

  lemma NineAlike(root: Value, fs: seq<Field>)
    requires |fs| == 9
    requires Alike(root, fs[0]) && Alike(root, fs[1]) && Alike(root, fs[2])
    requires Alike(root, fs[3]) && Alike(root, fs[4]) && Alike(root, fs[5])
    requires Alike(root, fs[6]) && Alike(root, fs[7]) && Alike(root, fs[8])
    ensures HoldsAlike(root, fs)
  {
    hide Alike;
    forall i | 0 <= i < 9
      ensures Alike(root, fs[i])
    {
      assert i == 0 || i == 1 || i == 2 || i == 3 || i == 4 || i == 5 || i == 6 || i == 7 || i == 8;
    }
  }

  lemma ViewerAlikeIf(c: ViewerContext, root: Value)
    requires ReadsViewer(root, c)
    ensures HoldsAlike(root, ViewerContextFields(c))
  {
    var fs := ViewerContextFields(c);
    hide MapGet, Require, Ascii, AsBool, HoldsAlike, Alike, BoolField;
    BoolAlike(root, "can_edit", c.canEdit);
    BoolAlike(root, "is_admin", c.isAdmin);
    BoolAlike(root, "is_owner", c.isOwner);
    BoolAlike(root, "is_member", c.isMember);
    BoolAlike(root, "can_delete", c.canDelete);
    BoolAlike(root, "has_joined", c.hasJoined);
    BoolAlike(root, "is_organizer", c.isOrganizer);
    BoolAlike(root, "is_presenter", c.isPresenter);
    BoolAlike(root, "can_manage_members", c.canManageMembers);
    NineAlike(root, fs);
  }

  lemma FlagHeld(root: Value, fs: seq<Field>, i: nat, key: string, b: bool)
    requires HoldsAlike(root, fs) && i < |fs| && fs[i] == BoolField(key, b)
    ensures ReadsBool(root, key, b)
  {
    hide Alike, MapGet, Require, Ascii, AsBool, BoolField;
    BoolAlike(root, key, b);
  }

  lemma FirstFlags(c: ViewerContext, root: Value)
    requires HoldsAlike(root, ViewerContextFields(c))
    ensures ReadsBool(root, "can_edit", c.canEdit)
    ensures ReadsBool(root, "is_admin", c.isAdmin)
    ensures ReadsBool(root, "is_owner", c.isOwner)
    ensures ReadsBool(root, "is_member", c.isMember)
  {
    var fs := ViewerContextFields(c);
    hide HoldsAlike, BoolField, ReadsBool, Ascii;
    FlagHeld(root, fs, 0, "can_edit", c.canEdit);
    FlagHeld(root, fs, 1, "is_admin", c.isAdmin);
    FlagHeld(root, fs, 2, "is_owner", c.isOwner);
    FlagHeld(root, fs, 3, "is_member", c.isMember);
  }

  lemma LastFlags(c: ViewerContext, root: Value)
    requires HoldsAlike(root, ViewerContextFields(c))
    ensures ReadsBool(root, "can_delete", c.canDelete)
    ensures ReadsBool(root, "has_joined", c.hasJoined)
    ensures ReadsBool(root, "is_organizer", c.isOrganizer)
    ensures ReadsBool(root, "is_presenter", c.isPresenter)
    ensures ReadsBool(root, "can_manage_members", c.canManageMembers)
  {
    var fs := ViewerContextFields(c);
    hide HoldsAlike, BoolField, ReadsBool, Ascii;
    FlagHeld(root, fs, 4, "can_delete", c.canDelete);
    FlagHeld(root, fs, 5, "has_joined", c.hasJoined);
    FlagHeld(root, fs, 6, "is_organizer", c.isOrganizer);
    FlagHeld(root, fs, 7, "is_presenter", c.isPresenter);
    FlagHeld(root, fs, 8, "can_manage_members", c.canManageMembers);
  }

  lemma ViewerAlikeOnlyIf(c: ViewerContext, root: Value)
    requires HoldsAlike(root, ViewerContextFields(c))
    ensures ReadsViewer(root, c)
  {
    hide HoldsAlike, ReadsBool, ViewerContextFields;
    FirstFlags(c, root);
    LastFlags(c, root);
  }

  lemma ViewerContextExact(c: ViewerContext, root: Value)
    ensures ViewerContextOf(root) == Ok(c) <==> HoldsViewerContext(root, c)
  {
    hide ViewerContextOf, ReadsViewer, HoldsAlike, ViewerContextFields;
    if ViewerContextOf(root) == Ok(c) {
      ViewerReadOnlyIf(c, root);
      ViewerAlikeIf(c, root);
    }
    if HoldsViewerContext(root, c) {
      ViewerAlikeOnlyIf(c, root);
      ViewerReadIf(c, root);
    }
  }

  ghost predicate HoldsPublishDecision(root: Value, d: PublishDecision) {
    HoldsAlike(root, PublishDecisionFields(d)) && d.source in PublishSources()
  }

  lemma PublishDecisionExact(d: PublishDecision, root: Value)
    ensures PublishDecisionOf(root) == Ok(d) <==> HoldsPublishDecision(root, d)
  {
    var fs := PublishDecisionFields(d);
    TextAlike(root, "source", Some(d.source));
    BoolAlike(root, "publishing", d.publishing);
    BoolAlike(root, "can_override", d.canOverride);
    WordRequired(root, "source", d.source, PublishSources());
    hide Alike, MapGet, Require, Optional, Ascii, AsBool, AsText, BoolField, TextField, AsMember, PublishSources;
    if HoldsAlike(root, fs) {
      assert Alike(root, fs[0]) && Alike(root, fs[1]) && Alike(root, fs[2]);
    }
    if Alike(root, fs[0]) && Alike(root, fs[1]) && Alike(root, fs[2]) {
      forall i | 0 <= i < 3
        ensures Alike(root, fs[i])
      {
        assert i == 0 || i == 1 || i == 2;
      }
    }
  }

  ghost predicate HoldsOrigin(root: Value, o: Origin) {
    HoldsAlike(root, OriginFields(o))
  }

  lemma OriginExact(o: Origin, root: Value)
    ensures OriginOf(root) == Ok(o) <==> HoldsOrigin(root, o)
  {
    var fs := OriginFields(o);
    TextAlike(root, "domain", Some(o.domain));
    BoolAlike(root, "is_external", o.isExternal);
    TextAlike(root, "peer_address", o.peerAddress);
    hide Alike, MapGet, Require, Optional, Ascii, AsBool, AsText, BoolField, TextField;
    if HoldsAlike(root, fs) {
      assert Alike(root, fs[0]) && Alike(root, fs[1]) && Alike(root, fs[2]);
    }
    if Alike(root, fs[0]) && Alike(root, fs[1]) && Alike(root, fs[2]) {
      forall i | 0 <= i < 3
        ensures Alike(root, fs[i])
      {
        assert i == 0 || i == 1 || i == 2;
      }
    }
  }

  ghost predicate HoldsOwnerRef(root: Value, o: OwnerRef) {
    HoldsAlike(root, OwnerRefFields(o)) && o.kind in OwnerKinds()
  }

  lemma OwnerRefExact(o: OwnerRef, root: Value)
    ensures OwnerRefOf(root) == Ok(o) <==> HoldsOwnerRef(root, o)
  {
    var fs := OwnerRefFields(o);
    TextAlike(root, "id", Some(o.id));
    TextAlike(root, "kind", Some(o.kind));
    TextAlike(root, "handle", Some(o.handle));
    TextAlike(root, "display_name", Some(o.displayName));
    TextAlike(root, "origin_domain", Some(o.originDomain));
    WordRequired(root, "kind", o.kind, OwnerKinds());
    hide Alike, MapGet, Require, Optional, Ascii, AsText, TextField, AsMember, OwnerKinds;
    if HoldsAlike(root, fs) {
      assert Alike(root, fs[0]) && Alike(root, fs[1]) && Alike(root, fs[2]) && Alike(root, fs[3])
          && Alike(root, fs[4]);
    }
    if Alike(root, fs[0]) && Alike(root, fs[1]) && Alike(root, fs[2]) && Alike(root, fs[3]) && Alike(root, fs[4]) {
      forall i | 0 <= i < 5
        ensures Alike(root, fs[i])
      {
        assert i == 0 || i == 1 || i == 2 || i == 3 || i == 4;
      }
    }
  }

  // Gathering.

  datatype Gathering = Gathering(
    id: seq<Byte>,
    slug: seq<Byte>,
    originDomain: seq<Byte>,
    name: seq<Byte>,
    blurb: seq<Byte>,
    description: seq<Byte>,
    owners: seq<OwnerRef>,
    memberCount: U64,
    eventCount: U64,
    nextEventAt: Option<int>,
    publishEvents: seq<Byte>,
    publish: PublishDecision,
    origin: Origin,
    viewer: ViewerContext,
    createdAt: int,
    updatedAt: int)

  function GatheringFields(rt: Runtime, g: Gathering): (fs: seq<Field>)
    ensures |fs| == 16
  {
    [
      TextField("id", Some(g.id)),
      TextField("name", Some(g.name)),
      TextField("slug", Some(g.slug)),
      TextField("blurb", Some(g.blurb)),
      Field(Ascii("origin"), Some(OriginValue(g.origin))),
      Field(Ascii("owners"), Some(Array(WriteAll(g.owners, OwnerRefValue)))),
      Field(Ascii("viewer"), Some(ViewerContextValue(g.viewer))),
      Field(Ascii("publish"), Some(PublishDecisionValue(g.publish))),
      Field(Ascii("created_at"), Some(EncTimestamp(rt, g.createdAt))),
      Field(Ascii("updated_at"), Some(EncTimestamp(rt, g.updatedAt))),
      TextField("description", Some(g.description)),
      UintField("event_count", Some(g.eventCount)),
      UintField("member_count", Some(g.memberCount)),
      Field(Ascii("next_event_at"), if g.nextEventAt.Some? then Some(EncTimestamp(rt, g.nextEventAt.value))
          else None),
      TextField("origin_domain", Some(g.originDomain)),
      TextField("publish_events", Some(g.publishEvents))
    ]
  }

  function GatheringValue(rt: Runtime, g: Gathering): Value {
    Map(Present(GatheringFields(rt, g)))
  }

  function GatheringNames(rt: Runtime, root: Value): Result<(seq<Byte>, seq<Byte>, seq<Byte>, seq<Byte>, seq<Byte>,
      seq<Byte>)> {
    var idField :- Require(root, Ascii("id"));
    var id :- AsText(idField);
    var slugField :- Require(root, Ascii("slug"));
    var slug :- AsText(slugField);
    var originDomainField :- Require(root, Ascii("origin_domain"));
    var originDomain :- AsText(originDomainField);
    var nameField :- Require(root, Ascii("name"));
    var name :- AsText(nameField);
    var blurbField :- Require(root, Ascii("blurb"));
    var blurb :- AsText(blurbField);
    var descriptionField :- Require(root, Ascii("description"));
    var description :- AsText(descriptionField);
    Ok((id, slug, originDomain, name, blurb, description))
  }

  function GatheringCounts(rt: Runtime, root: Value): Result<(seq<OwnerRef>, U64, U64, Option<int>, seq<Byte>)> {
    var ownersField :- Require(root, Ascii("owners"));
    var owners :- DecArray(ownersField, OwnerRefOf);
    var memberCountField :- Require(root, Ascii("member_count"));
    var memberCount :- AsU64(memberCountField);
    var eventCountField :- Require(root, Ascii("event_count"));
    var eventCount :- AsU64(eventCountField);
    var nextEventAt :- Optional(MapGet(root, Ascii("next_event_at")), (x: Value) => AsTimestamp(rt, x));
    var publishEventsField :- Require(root, Ascii("publish_events"));
    var publishEvents :- AsMember(publishEventsField, PublishSettings());
    Ok((owners, memberCount, eventCount, nextEventAt, publishEvents))
  }

  function GatheringParts(rt: Runtime, root: Value): Result<(PublishDecision, Origin, ViewerContext, int, int)> {
    var publishField :- Require(root, Ascii("publish"));
    var publish :- PublishDecisionOf(publishField);
    var originField :- Require(root, Ascii("origin"));
    var origin :- OriginOf(originField);
    var viewerField :- Require(root, Ascii("viewer"));
    var viewer :- ViewerContextOf(viewerField);
    var createdAtField :- Require(root, Ascii("created_at"));
    var createdAt :- AsTimestamp(rt, createdAtField);
    var updatedAtField :- Require(root, Ascii("updated_at"));
    var updatedAt :- AsTimestamp(rt, updatedAtField);
    Ok((publish, origin, viewer, createdAt, updatedAt))
  }

  /** The fields in schema order, in three groups. */
  function GatheringOf(rt: Runtime, root: Value): Result<Gathering> {
    var (id, slug, originDomain, name, blurb, description) :- GatheringNames(rt, root);
    var (owners, memberCount, eventCount, nextEventAt, publishEvents) :- GatheringCounts(rt, root);
    var (publish, origin, viewer, createdAt, updatedAt) :- GatheringParts(rt, root);
    Ok(Gathering(id, slug, originDomain, name, blurb, description, owners, memberCount, eventCount, nextEventAt,
        publishEvents, publish, origin, viewer, createdAt, updatedAt))
  }

  /** The declared fields one by one. */
  lemma GatheringFieldList(rt: Runtime, g: Gathering)
    ensures var fs := GatheringFields(rt, g);
            && fs[0] == TextField("id", Some(g.id))
            && fs[1] == TextField("name", Some(g.name))
            && fs[2] == TextField("slug", Some(g.slug))
            && fs[3] == TextField("blurb", Some(g.blurb))
            && fs[4] == Field(Ascii("origin"), Some(OriginValue(g.origin)))
            && fs[5] == Field(Ascii("owners"), Some(Array(WriteAll(g.owners, OwnerRefValue))))
            && fs[6] == Field(Ascii("viewer"), Some(ViewerContextValue(g.viewer)))
            && fs[7] == Field(Ascii("publish"), Some(PublishDecisionValue(g.publish)))
            && fs[8] == Field(Ascii("created_at"), Some(EncTimestamp(rt, g.createdAt)))
            && fs[9] == Field(Ascii("updated_at"), Some(EncTimestamp(rt, g.updatedAt)))
            && fs[10] == TextField("description", Some(g.description))
            && fs[11] == UintField("event_count", Some(g.eventCount))
            && fs[12] == UintField("member_count", Some(g.memberCount))
            && fs[13] == Field(Ascii("next_event_at"), if g.nextEventAt.Some? then Some(EncTimestamp(rt,
                g.nextEventAt.value)) else None)
            && fs[14] == TextField("origin_domain", Some(g.originDomain))
            && fs[15] == TextField("publish_events", Some(g.publishEvents))
  {
    hide OriginValue, ViewerContextValue, PublishDecisionValue, EncTimestamp, WriteAll, Ascii, UintField, TextField;
  }

  method CsilEncGathering(rt: Runtime, g: Gathering) returns (tree: Value)
    ensures tree == GatheringValue(rt, g)
  {
    GatheringFieldList(rt, g);
    hide Present, Ascii, WriteAll, OriginValue, ViewerContextValue, PublishDecisionValue, EncTimestamp,
      GatheringFields;
    ghost var fs := GatheringFields(rt, g);
    var entries := [];
    PresentStep(fs, 0);
    entries := entries + [Entry(Text(Ascii("id")), Text(g.id))];
    assert entries == Present(fs[..1]);
    PresentStep(fs, 1);
    entries := entries + [Entry(Text(Ascii("name")), Text(g.name))];
    assert entries == Present(fs[..2]);
    PresentStep(fs, 2);
    entries := entries + [Entry(Text(Ascii("slug")), Text(g.slug))];
    assert entries == Present(fs[..3]);
    PresentStep(fs, 3);
    entries := entries + [Entry(Text(Ascii("blurb")), Text(g.blurb))];
    assert entries == Present(fs[..4]);
    PresentStep(fs, 4);
    entries := entries + [Entry(Text(Ascii("origin")), OriginValue(g.origin))];
    assert entries == Present(fs[..5]);
    PresentStep(fs, 5);
    var owners := CborEncArray(g.owners, OwnerRefValue);
    entries := entries + [Entry(Text(Ascii("owners")), owners)];
    assert entries == Present(fs[..6]);
    PresentStep(fs, 6);
    entries := entries + [Entry(Text(Ascii("viewer")), ViewerContextValue(g.viewer))];
    assert entries == Present(fs[..7]);
    PresentStep(fs, 7);
    entries := entries + [Entry(Text(Ascii("publish")), PublishDecisionValue(g.publish))];
    tree := CsilEncGatheringRest(rt, g, entries);
  }

  /** The second half of the same run of appends. */
  method CsilEncGatheringRest(rt: Runtime, g: Gathering, first: seq<Entry>) returns (tree: Value)
    requires first == Present(GatheringFields(rt, g)[..8])
    ensures tree == GatheringValue(rt, g)
  {
    GatheringFieldList(rt, g);
    hide Present, Ascii, WriteAll, OriginValue, ViewerContextValue, PublishDecisionValue, EncTimestamp,
      GatheringFields;
    ghost var fs := GatheringFields(rt, g);
    var entries := first;
    assert entries == Present(fs[..8]);
    PresentStep(fs, 8);
    entries := entries + [Entry(Text(Ascii("created_at")), EncTimestamp(rt, g.createdAt))];
    assert entries == Present(fs[..9]);
    PresentStep(fs, 9);
    entries := entries + [Entry(Text(Ascii("updated_at")), EncTimestamp(rt, g.updatedAt))];
    assert entries == Present(fs[..10]);
    PresentStep(fs, 10);
    entries := entries + [Entry(Text(Ascii("description")), Text(g.description))];
    assert entries == Present(fs[..11]);
    PresentStep(fs, 11);
    entries := entries + [Entry(Text(Ascii("event_count")), Uint(g.eventCount))];
    assert entries == Present(fs[..12]);
    PresentStep(fs, 12);
    entries := entries + [Entry(Text(Ascii("member_count")), Uint(g.memberCount))];
    assert entries == Present(fs[..13]);
    PresentStep(fs, 13);
    if g.nextEventAt.Some? {
      entries := entries + [Entry(Text(Ascii("next_event_at")), EncTimestamp(rt, g.nextEventAt.value))];
    }
    assert entries == Present(fs[..14]);
    PresentStep(fs, 14);
    entries := entries + [Entry(Text(Ascii("origin_domain")), Text(g.originDomain))];
    assert entries == Present(fs[..15]);
    PresentStep(fs, 15);
    entries := entries + [Entry(Text(Ascii("publish_events")), Text(g.publishEvents))];
    tree := Map(entries);
  }

  lemma FirstKeys(rt: Runtime, g: Gathering)
    ensures var fs := GatheringFields(rt, g);
            && fs[0].key == Ascii("id")
            && fs[1].key == Ascii("name")
            && fs[2].key == Ascii("slug")
            && fs[3].key == Ascii("blurb")
            && fs[4].key == Ascii("origin")
            && fs[5].key == Ascii("owners")
            && fs[6].key == Ascii("viewer")
            && fs[7].key == Ascii("publish")
  {
    hide OriginValue, ViewerContextValue, PublishDecisionValue, EncTimestamp, WriteAll, Ascii;
  }

  lemma LastKeys(rt: Runtime, g: Gathering)
    ensures var fs := GatheringFields(rt, g);
            && fs[8].key == Ascii("created_at")
            && fs[9].key == Ascii("updated_at")
            && fs[10].key == Ascii("description")
            && fs[11].key == Ascii("event_count")
            && fs[12].key == Ascii("member_count")
            && fs[13].key == Ascii("next_event_at")
            && fs[14].key == Ascii("origin_domain")
            && fs[15].key == Ascii("publish_events")
  {
    hide OriginValue, ViewerContextValue, PublishDecisionValue, EncTimestamp, WriteAll, Ascii;
  }

  lemma FirstNames()
    ensures LengthFirst(Ascii("id"), Ascii("name"))
    ensures LengthFirst(Ascii("name"), Ascii("slug"))
    ensures LengthFirst(Ascii("slug"), Ascii("blurb"))
    ensures LengthFirst(Ascii("blurb"), Ascii("origin"))
    ensures LengthFirst(Ascii("origin"), Ascii("owners"))
    ensures LengthFirst(Ascii("owners"), Ascii("viewer"))
    ensures LengthFirst(Ascii("viewer"), Ascii("publish"))
    ensures LengthFirst(Ascii("publish"), Ascii("created_at"))
  {
    hide LengthFirst, Ascii;
    NameOrder("id", "name", 0);
    NameOrder("name", "slug", 0);
    NameOrder("slug", "blurb", 0);
    NameOrder("blurb", "origin", 0);
    NameOrder("origin", "owners", 1);
    NameOrder("owners", "viewer", 0);
    NameOrder("viewer", "publish", 0);
    NameOrder("publish", "created_at", 0);
  }

  lemma LastNames()
    ensures LengthFirst(Ascii("created_at"), Ascii("updated_at"))
    ensures LengthFirst(Ascii("updated_at"), Ascii("description"))
    ensures LengthFirst(Ascii("description"), Ascii("event_count"))
    ensures LengthFirst(Ascii("event_count"), Ascii("member_count"))
    ensures LengthFirst(Ascii("member_count"), Ascii("next_event_at"))
    ensures LengthFirst(Ascii("next_event_at"), Ascii("origin_domain"))
    ensures LengthFirst(Ascii("origin_domain"), Ascii("publish_events"))
  {
    hide LengthFirst, Ascii;
    NameOrder("created_at", "updated_at", 0);
    NameOrder("updated_at", "description", 0);
    NameOrder("description", "event_count", 0);
    NameOrder("event_count", "member_count", 0);
    NameOrder("member_count", "next_event_at", 0);
    NameOrder("next_event_at", "origin_domain", 0);
    NameOrder("origin_domain", "publish_events", 0);
  }

  lemma GatheringNeighbours(rt: Runtime, g: Gathering)
    ensures forall i | 0 <= i < 15 :: LengthFirst(GatheringFields(rt, g)[i].key, GatheringFields(rt, g)[i + 1].key)
  {
    FirstKeys(rt, g);
    LastKeys(rt, g);
    FirstNames();
    LastNames();
    hide LengthFirst, Ascii, GatheringFields;
    var fs := GatheringFields(rt, g);
    forall i | 0 <= i < 15
      ensures LengthFirst(fs[i].key, fs[i + 1].key)
    {
      assert i == 0 || i == 1 || i == 2 || i == 3 || i == 4 || i == 5 || i == 6 || i == 7 || i == 8 || i == 9
        || i == 10 || i == 11 || i == 12 || i == 13 || i == 14;
    }
  }

  lemma GatheringKeysIncrease(rt: Runtime, g: Gathering)
    ensures Increasing(GatheringFields(rt, g)) && AsciiKeys(GatheringFields(rt, g))
    ensures CanonicalKeys(Present(GatheringFields(rt, g)))
  {
    var fs := GatheringFields(rt, g);
    GatheringNeighbours(rt, g);
    hide LengthFirst, Present, CanonicalKeys, OriginValue, ViewerContextValue, PublishDecisionValue, EncTimestamp,
      WriteAll;
    NeighboursSuffice(fs);
    EmittedKeysIncrease(fs);
  }

  predicate GatheringValid(rt: Runtime, g: Gathering) {
    && ValidText(rt, g.id)
    && ValidText(rt, g.slug)
    && ValidText(rt, g.originDomain)
    && ValidText(rt, g.name)
    && ValidText(rt, g.blurb)
    && ValidText(rt, g.description)
    && |g.owners| < TWO_64
    && (forall x | x in g.owners :: OwnerRefValid(rt, x))
    && (g.nextEventAt.Some? ==> ValidTime(rt, g.nextEventAt.value))
    && ValidText(rt, g.publishEvents)
    && PublishDecisionValid(rt, g.publish)
    && OriginValid(rt, g.origin)
    && ValidTime(rt, g.createdAt)
    && ValidTime(rt, g.updatedAt)
  }

  predicate OwnersDeclared(owners: seq<OwnerRef>) {
    forall x | x in owners :: OwnerRefDeclared(x)
  }

  /** Every word of a gathering, its owners' and its publish decision's included, is of its vocabulary. */
  predicate GatheringDeclared(g: Gathering) {
    OwnersDeclared(g.owners) && g.publishEvents in PublishSettings() && PublishDecisionDeclared(g.publish)
  }

  lemma GatheringNamesRead(rt: Runtime, g: Gathering, root: Value)
    requires Holds(root, GatheringFields(rt, g))
    ensures GatheringNames(rt, root) == Ok((g.id, g.slug, g.originDomain, g.name, g.blurb, g.description))
  {
    GatheringFieldList(rt, g);
    hide Norm, Holds, Ascii, MapGet, DecArray, WriteAll, EncTimestamp, AsTimestamp, OriginOf, OriginValue,
      ViewerContextOf, ViewerContextValue, PublishDecisionOf, PublishDecisionValue, GatheringFields;
    var fs := GatheringFields(rt, g);
    Held(root, fs, 0);
    Held(root, fs, 2);
    Held(root, fs, 14);
    Held(root, fs, 1);
    Held(root, fs, 3);
    Held(root, fs, 10);
    NormPlain();
  }

  lemma GatheringCountsRead(rt: Runtime, g: Gathering, root: Value)
    requires Holds(root, GatheringFields(rt, g))
    requires DecArray(Norm(Array(WriteAll(g.owners, OwnerRefValue))), OwnerRefOf)
          == if OwnersDeclared(g.owners) then Ok(g.owners) else Err(NotInEnum)
    requires g.nextEventAt.Some?
        ==> AsTimestamp(rt, Norm(EncTimestamp(rt, g.nextEventAt.value))) == Ok(g.nextEventAt.value)
    ensures GatheringCounts(rt, root)
         == if OwnersDeclared(g.owners) && g.publishEvents in PublishSettings()
            then Ok((g.owners, g.memberCount, g.eventCount, g.nextEventAt, g.publishEvents))
            else Err(NotInEnum)
  {
    GatheringFieldList(rt, g);
    hide Norm, Holds, Ascii, MapGet, DecArray, WriteAll, EncTimestamp, AsTimestamp, OriginOf, OriginValue,
      ViewerContextOf, ViewerContextValue, PublishDecisionOf, PublishDecisionValue, GatheringFields,
      OwnersDeclared, PublishDecisionDeclared, PublishSettings;
    var fs := GatheringFields(rt, g);
    Held(root, fs, 5);
    Held(root, fs, 12);
    Held(root, fs, 11);
    Held(root, fs, 13);
    Held(root, fs, 15);
    NormPlain();
  }

  lemma GatheringPartsRead(rt: Runtime, g: Gathering, root: Value)
    requires Holds(root, GatheringFields(rt, g))
    requires PublishDecisionOf(Norm(PublishDecisionValue(g.publish)))
          == if PublishDecisionDeclared(g.publish) then Ok(g.publish) else Err(NotInEnum)
    requires OriginOf(Norm(OriginValue(g.origin))) == Ok(g.origin)
    requires ViewerContextOf(Norm(ViewerContextValue(g.viewer))) == Ok(g.viewer)
    requires AsTimestamp(rt, Norm(EncTimestamp(rt, g.createdAt))) == Ok(g.createdAt)
    requires AsTimestamp(rt, Norm(EncTimestamp(rt, g.updatedAt))) == Ok(g.updatedAt)
    ensures GatheringParts(rt, root)
         == if PublishDecisionDeclared(g.publish) then Ok((g.publish, g.origin, g.viewer, g.createdAt, g.updatedAt))
            else Err(NotInEnum)
  {
    GatheringFieldList(rt, g);
    hide Norm, Holds, Ascii, MapGet, DecArray, WriteAll, EncTimestamp, AsTimestamp, OriginOf, OriginValue,
      ViewerContextOf, ViewerContextValue, PublishDecisionOf, PublishDecisionValue, GatheringFields,
      OwnersDeclared, PublishDecisionDeclared, PublishSettings;
    var fs := GatheringFields(rt, g);
    Held(root, fs, 7);
    Held(root, fs, 4);
    Held(root, fs, 6);
    Held(root, fs, 8);
    Held(root, fs, 9);
    NormPlain();
  }

  // GatheringList.

  datatype GatheringList = GatheringList(
    gatherings: seq<Gathering>,
    total: U64)

  function GatheringListFields(rt: Runtime, l: GatheringList): (fs: seq<Field>)
    ensures |fs| == 2
  {
    [
      UintField("total", Some(l.total)),
      Field(Ascii("gatherings"), Some(Array(WriteAll(l.gatherings, (x: Gathering) => GatheringValue(rt, x)))))
    ]
  }

  function GatheringListValue(rt: Runtime, l: GatheringList): Value {
    Map(Present(GatheringListFields(rt, l)))
  }

  function GatheringListOf(rt: Runtime, root: Value): Result<GatheringList> {
    var gatheringsField :- Require(root, Ascii("gatherings"));
    var gatherings :- DecArray(gatheringsField, (x: Value) => GatheringOf(rt, x));
    var totalField :- Require(root, Ascii("total"));
    var total :- AsU64(totalField);
    Ok(GatheringList(gatherings, total))
  }

  /** The declared fields one by one. */
  lemma GatheringListFieldList(rt: Runtime, l: GatheringList)
    ensures var fs := GatheringListFields(rt, l);
            && fs[0] == UintField("total", Some(l.total))
            && fs[1] == Field(Ascii("gatherings"), Some(Array(WriteAll(l.gatherings,
                (x: Gathering) => GatheringValue(rt, x)))))
  {
    hide OriginValue, ViewerContextValue, PublishDecisionValue, EncTimestamp, WriteAll, Ascii, UintField, TextField;
  }

  method CsilEncGatheringList(rt: Runtime, l: GatheringList) returns (tree: Value)
    ensures tree == GatheringListValue(rt, l)
  {
    GatheringListFieldList(rt, l);
    hide Present, Ascii, WriteAll, OriginValue, ViewerContextValue, PublishDecisionValue, EncTimestamp,
      GatheringListFields;
    ghost var fs := GatheringListFields(rt, l);
    var entries := [];
    PresentStep(fs, 0);
    entries := entries + [Entry(Text(Ascii("total")), Uint(l.total))];
    assert entries == Present(fs[..1]);
    PresentStep(fs, 1);
    var gatherings := CborEncArray(l.gatherings, (x: Gathering) => GatheringValue(rt, x));
    entries := entries + [Entry(Text(Ascii("gatherings")), gatherings)];
    tree := Map(entries);
  }

  lemma GatheringListKeysIncrease(rt: Runtime, l: GatheringList)
    ensures Increasing(GatheringListFields(rt, l)) && AsciiKeys(GatheringListFields(rt, l))
    ensures CanonicalKeys(Present(GatheringListFields(rt, l)))
  {
    var fs := GatheringListFields(rt, l);
    NameOrder("total", "gatherings", 0);
    hide LengthFirst, Present, CanonicalKeys, OriginValue, ViewerContextValue, PublishDecisionValue, EncTimestamp,
      WriteAll;
    NeighboursSuffice(fs);
    EmittedKeysIncrease(fs);
  }

  predicate GatheringListValid(rt: Runtime, l: GatheringList) {
    && |l.gatherings| < TWO_64
    && (forall x | x in l.gatherings :: GatheringValid(rt, x))
  }

  predicate GatheringListDeclared(l: GatheringList) {
    forall x | x in l.gatherings :: GatheringDeclared(x)
  }

  // Gatherings on the wire.

  lemma SendableUp(rt: Runtime, v: Value, h: nat, k: nat)
    requires Sendable(rt, v, h) && h <= k
    ensures Sendable(rt, v, k)
  {
  }

  lemma OwnersTravel(rt: Runtime, owners: seq<OwnerRef>)
    requires AcceptsAscii(rt) && |owners| < TWO_64 && forall x | x in owners :: OwnerRefValid(rt, x)
    ensures Sendable(rt, Array(WriteAll(owners, OwnerRefValue)), 2)
    ensures DecArray(Norm(Array(WriteAll(owners, OwnerRefValue))), OwnerRefOf)
         == if OwnersDeclared(owners) then Ok(owners) else Err(NotInEnum)
  {
    hide Norm, Sendable, OwnerRefOf, OwnerRefValue, AcceptsAscii, OwnerRefValid, OwnerRefDeclared, DecArray,
      WriteAll;
    forall x | x in owners
      ensures Sendable(rt, OwnerRefValue(x), 1)
      ensures OwnerRefOf(Norm(OwnerRefValue(x))) == if OwnerRefDeclared(x) then Ok(x) else Err(NotInEnum)
    {
      OwnerRefTravels(rt, x);
    }
    WrittenSendable(rt, owners, OwnerRefValue, 1);
    ArraySendable(rt, WriteAll(owners, OwnerRefValue), 1);
    ListVerdict(owners, OwnerRefValue, OwnerRefOf, OwnerRefDeclared, NotInEnum);
  }

  predicate FieldSendable(rt: Runtime, f: Field, h: nat) {
    f.value.Some? ==> Sendable(rt, f.value.value, h)
  }

  lemma FieldsFromEach(rt: Runtime, fs: seq<Field>, h: nat)
    requires AcceptsAscii(rt) && AsciiKeys(fs)
    requires forall i | 0 <= i < |fs| :: FieldSendable(rt, fs[i], h)
    ensures FieldsSendable(rt, fs, h)
  {
    hide Sendable;
    forall i | 0 <= i < |fs|
      ensures ValidText(rt, fs[i].key) && (fs[i].value.Some? ==> Sendable(rt, fs[i].value.value, h))
    {
      assert FieldSendable(rt, fs[i], h);
    }
  }

  lemma TextFieldSendable(rt: Runtime, key: string, s: seq<Byte>)
    requires ValidText(rt, s)
    ensures FieldSendable(rt, TextField(key, Some(s)), 2)
  {
    LeafSendable(rt, Text(s));
  }

  lemma UintFieldSendable(rt: Runtime, key: string, u: U64)
    ensures FieldSendable(rt, UintField(key, Some(u)), 2)
  {
    LeafSendable(rt, Uint(u));
  }

  lemma GatheringLeaves(rt: Runtime, g: Gathering)
    requires GatheringValid(rt, g)
    ensures forall i | i in {0, 1, 2, 3, 10, 11, 12, 14, 15} :: FieldSendable(rt, GatheringFields(rt, g)[i], 2)
  {
    GatheringFieldList(rt, g);
    TextFieldSendable(rt, "id", g.id);
    TextFieldSendable(rt, "name", g.name);
    TextFieldSendable(rt, "slug", g.slug);
    TextFieldSendable(rt, "blurb", g.blurb);
    TextFieldSendable(rt, "description", g.description);
    UintFieldSendable(rt, "event_count", g.eventCount);
    UintFieldSendable(rt, "member_count", g.memberCount);
    TextFieldSendable(rt, "origin_domain", g.originDomain);
    TextFieldSendable(rt, "publish_events", g.publishEvents);
    hide FieldSendable, GatheringFields, TextField, UintField, EncTimestamp, WriteAll;
  }

  lemma GatheringParts4to9(rt: Runtime, g: Gathering)
    requires AcceptsAscii(rt) && GatheringValid(rt, g)
    ensures forall i | i in {4, 5, 6, 7, 8, 9, 13} :: FieldSendable(rt, GatheringFields(rt, g)[i], 2)
    ensures OriginOf(Norm(OriginValue(g.origin))) == Ok(g.origin)
    ensures ViewerContextOf(Norm(ViewerContextValue(g.viewer))) == Ok(g.viewer)
    ensures PublishDecisionOf(Norm(PublishDecisionValue(g.publish)))
         == if PublishDecisionDeclared(g.publish) then Ok(g.publish) else Err(NotInEnum)
  {
    hide Sendable, GatheringFields, TextField, UintField, EncTimestamp, WriteAll, Norm, OriginValue, OriginOf,
      ViewerContextValue, ViewerContextOf, PublishDecisionValue, PublishDecisionOf, ValidText, AcceptsAscii;
    GatheringFieldList(rt, g);
    OriginTravels(rt, g.origin);
    ViewerContextTravels(rt, g.viewer);
    PublishDecisionTravels(rt, g.publish);
    OwnersTravel(rt, g.owners);
    TimeTravels(rt, g.createdAt);
    TimeTravels(rt, g.updatedAt);
    SendableUp(rt, OriginValue(g.origin), 1, 2);
    SendableUp(rt, ViewerContextValue(g.viewer), 1, 2);
    SendableUp(rt, PublishDecisionValue(g.publish), 1, 2);
    SendableUp(rt, EncTimestamp(rt, g.createdAt), 1, 2);
    SendableUp(rt, EncTimestamp(rt, g.updatedAt), 1, 2);
    if g.nextEventAt.Some? {
      TimeTravels(rt, g.nextEventAt.value);
      SendableUp(rt, EncTimestamp(rt, g.nextEventAt.value), 1, 2);
    }
  }

  lemma GatheringFieldsSendable(rt: Runtime, g: Gathering)
    requires AcceptsAscii(rt) && GatheringValid(rt, g)
    ensures FieldsSendable(rt, GatheringFields(rt, g), 2)
  {
    hide *;
    var fs := GatheringFields(rt, g);
    assert |fs| == 16;
    GatheringLeaves(rt, g);
    GatheringParts4to9(rt, g);
    GatheringKeysIncrease(rt, g);
    FieldsFromEach(rt, fs, 2);
  }

  /** A gathering arrives whole, three levels high, and is refused exactly when one of its words is not declared. */
  lemma GatheringTravels(rt: Runtime, g: Gathering)
    requires AcceptsAscii(rt) && GatheringValid(rt, g)
    ensures Sendable(rt, GatheringValue(rt, g), 3)
    ensures GatheringOf(rt, Norm(GatheringValue(rt, g))) == if GatheringDeclared(g) then Ok(g) else Err(NotInEnum)
  {
    GatheringFieldsSendable(rt, g);
    GatheringKeysIncrease(rt, g);
    GatheringParts4to9(rt, g);
    OwnersTravel(rt, g.owners);
    TimeTravels(rt, g.createdAt);
    TimeTravels(rt, g.updatedAt);
    if g.nextEventAt.Some? {
      TimeTravels(rt, g.nextEventAt.value);
    }
    hide Norm, Sendable, GatheringFields, Present, Increasing, Holds, AsciiKeys, CanonicalKeys, FieldsSendable,
      GatheringNames, GatheringCounts, GatheringParts, ValidText, AcceptsAscii, OriginOf, OriginValue,
      ViewerContextOf, OwnersDeclared, PublishDecisionDeclared, PublishSettings, ViewerContextValue,
      PublishDecisionOf, PublishDecisionValue, EncTimestamp, AsTimestamp, DecArray, WriteAll;
    var fs, root := GatheringFields(rt, g), Norm(GatheringValue(rt, g));
    RecordSendable(rt, fs, 2);
    RecordHolds(fs);
    GatheringNamesRead(rt, g, root);
    GatheringCountsRead(rt, g, root);
    GatheringPartsRead(rt, g, root);
  }

  function EncodeGatheringList(rt: Runtime, l: GatheringList): seq<Byte> {
    Enc(GatheringListValue(rt, l))
  }

  function DecodeGatheringList(rt: Runtime, b: seq<Byte>): Result<GatheringList> {
    var root :- Decode(rt, b);
    GatheringListOf(rt, root)
  }

  lemma GatheringsTravel(rt: Runtime, gs: seq<Gathering>)
    requires AcceptsAscii(rt) && |gs| < TWO_64 && forall x | x in gs :: GatheringValid(rt, x)
    ensures Sendable(rt, Array(WriteAll(gs, (x: Gathering) => GatheringValue(rt, x))), 4)
    ensures DecArray(Norm(Array(WriteAll(gs, (x: Gathering) => GatheringValue(rt, x)))),
                     (x: Value) => GatheringOf(rt, x))
         == if forall x | x in gs :: GatheringDeclared(x) then Ok(gs) else Err(NotInEnum)
  {
    hide Norm, Sendable, GatheringOf, GatheringValue, AcceptsAscii, GatheringValid, GatheringDeclared, DecArray,
      WriteAll;
    var f, g := (x: Gathering) => GatheringValue(rt, x), (x: Value) => GatheringOf(rt, x);
    forall x | x in gs
      ensures Sendable(rt, f(x), 3) && g(Norm(f(x))) == if GatheringDeclared(x) then Ok(x) else Err(NotInEnum)
    {
      GatheringTravels(rt, x);
    }
    WrittenSendable(rt, gs, f, 3);
    ArraySendable(rt, WriteAll(gs, f), 3);
    ListVerdict(gs, f, g, GatheringDeclared, NotInEnum);
  }

  lemma GatheringListFieldsSendable(rt: Runtime, l: GatheringList)
    requires AcceptsAscii(rt) && GatheringListValid(rt, l)
    ensures FieldsSendable(rt, GatheringListFields(rt, l), 4)
  {
    hide Sendable, GatheringValue, GatheringOf, WriteAll, DecArray, GatheringValid, Norm, Increasing, CanonicalKeys,
      Present, AsciiKeys, AcceptsAscii, Ascii, FieldsSendable;
    GatheringsTravel(rt, l.gatherings);
    GatheringListKeysIncrease(rt, l);
    LeafSendable(rt, Uint(l.total));
    SendableUp(rt, Uint(l.total), 0, 4);
    FieldsFromEach(rt, GatheringListFields(rt, l), 4);
  }

  lemma GatheringListRead(rt: Runtime, l: GatheringList, root: Value)
    requires AcceptsAscii(rt) && GatheringListValid(rt, l) && Holds(root, GatheringListFields(rt, l))
    ensures GatheringListOf(rt, root) == if GatheringListDeclared(l) then Ok(l) else Err(NotInEnum)
  {
    hide Sendable, GatheringValue, GatheringOf, WriteAll, DecArray, GatheringValid, Norm, Holds, Ascii, MapGet,
      AcceptsAscii;
    GatheringsTravel(rt, l.gatherings);
    Held(root, GatheringListFields(rt, l), 0);
    Held(root, GatheringListFields(rt, l), 1);
    NormPlain();
  }

  /** A list record of any length, with lists of any length inside it, comes back unchanged, or is refused when a
      word anywhere in it is not declared. */
  lemma GatheringListRoundTrip(rt: Runtime, l: GatheringList)
    requires AcceptsAscii(rt) && GatheringListValid(rt, l)
    ensures DecodeGatheringList(rt, EncodeGatheringList(rt, l))
         == if GatheringListDeclared(l) then Ok(l) else Err(NotInEnum)
  {
    hide GatheringListFields, GatheringListOf, GatheringListValid, Present, Increasing, AsciiKeys, CanonicalKeys,
      FieldsSendable, Holds, Enc, Decode, AcceptsAscii;
    GatheringListFieldsSendable(rt, l);
    GatheringListKeysIncrease(rt, l);
    RecordDelivered(rt, GatheringListFields(rt, l), 4);
    GatheringListRead(rt, l, Decode(rt, EncodeGatheringList(rt, l)).value);
  }

  // Heights, with no condition on the texts.

  ghost predicate FieldsLow(fs: seq<Field>, h: nat) {
    forall i | 0 <= i < |fs| && fs[i].value.Some? :: Height(fs[i].value.value) <= h
  }

  lemma LeafHeight(v: Value)
    requires IsLeaf(v)
    ensures Height(v) == 0
  {
    assert Kids(v) == [];
  }

  lemma {:induction false} ListLow(vs: seq<Value>, h: nat)
    requires forall v | v in vs :: Height(v) <= h
    ensures HeightAll(vs) <= h
  {
    if vs != [] {
      assert vs[0] in vs;
      ListLow(vs[1..], h);
    }
  }

  lemma {:induction false} PresentLow(fs: seq<Field>, h: nat)
    requires FieldsLow(fs, h)
    ensures forall v | v in Flatten(Present(fs)) :: Height(v) <= h
  {
    if fs != [] {
      var front, last := fs[..|fs| - 1], fs[|fs| - 1];
      assert FieldsLow(front, h);
      PresentLow(front, h);
      LeafHeight(Text(last.key));
      hide Height;
      if last.value.Some? {
        FlattenSnoc(Present(front), Entry(Text(last.key), last.value.value));
      } else {
        assert Present(fs) == Present(front);
      }
    }
  }

  lemma RecordLow(fs: seq<Field>, h: nat)
    requires FieldsLow(fs, h)
    ensures Height(Map(Present(fs))) <= h + 1
  {
    PresentLow(fs, h);
    ListLow(Flatten(Present(fs)), h);
    assert Kids(Map(Present(fs))) == Flatten(Present(fs));
    hide Present, HeightAll, Flatten;
  }

  lemma {:induction false} WrittenLow<E>(xs: seq<E>, f: E -> Value, h: nat)
    requires forall x | x in xs :: Height(f(x)) <= h
    ensures forall v | v in WriteAll(xs, f) :: Height(v) <= h
  {
    if xs != [] {
      assert xs[|xs| - 1] in xs;
      WrittenLow(xs[..|xs| - 1], f, h);
      hide Height;
    }
  }

  lemma ListRecordLow<E>(xs: seq<E>, f: E -> Value, h: nat)
    requires forall x | x in xs :: Height(f(x)) <= h
    ensures Height(Array(WriteAll(xs, f))) <= h + 1
  {
    WrittenLow(xs, f, h);
    ListLow(WriteAll(xs, f), h);
    assert Kids(Array(WriteAll(xs, f))) == WriteAll(xs, f);
    hide WriteAll, HeightAll;
  }

  lemma LeafFieldsLow(fs: seq<Field>)
    requires forall i | 0 <= i < |fs| && fs[i].value.Some? :: IsLeaf(fs[i].value.value)
    ensures Height(Map(Present(fs))) <= 1
  {
    forall i | 0 <= i < |fs| && fs[i].value.Some?
      ensures Height(fs[i].value.value) <= 0
    {
      LeafHeight(fs[i].value.value);
    }
    hide Height, Present;
    RecordLow(fs, 0);
  }

  lemma OwnerHeight(o: OwnerRef)
    ensures Height(OwnerRefValue(o)) <= 1
  {
    hide Height, Present, Ascii;
    LeafFieldsLow(OwnerRefFields(o));
  }

  lemma TimestampHeight(rt: Runtime, t: int)
    ensures Height(EncTimestamp(rt, t)) == 1
  {
    var text := Text(rt.formatTime(t));
    LeafHeight(text);
    assert Kids(EncTimestamp(rt, t)) == [text] && [text][1..] == [];
    Single(rt, text);
  }

  lemma PlainFieldsLow(rt: Runtime, g: Gathering)
    ensures Height(OriginValue(g.origin)) <= 1 && Height(ViewerContextValue(g.viewer)) <= 1
    ensures Height(PublishDecisionValue(g.publish)) <= 1
    ensures Height(Array(WriteAll(g.owners, OwnerRefValue))) <= 2
  {
    hide Height, Present, Ascii, OwnerRefValue, WriteAll;
    LeafFieldsLow(OriginFields(g.origin));
    LeafFieldsLow(ViewerContextFields(g.viewer));
    LeafFieldsLow(PublishDecisionFields(g.publish));
    forall x | x in g.owners
      ensures Height(OwnerRefValue(x)) <= 1
    {
      OwnerHeight(x);
    }
    ListRecordLow(g.owners, OwnerRefValue, 1);
  }

  lemma GatheringHeight(rt: Runtime, g: Gathering)
    ensures Height(GatheringValue(rt, g)) <= 3
  {
    var fs := GatheringFields(rt, g);
    GatheringFieldList(rt, g);
    PlainFieldsLow(rt, g);
    hide Height, Present, Ascii, WriteAll, OriginValue, ViewerContextValue, PublishDecisionValue, EncTimestamp,
      GatheringFields;
    forall i | 0 <= i < |fs| && fs[i].value.Some?
      ensures Height(fs[i].value.value) <= 2
    {
      var v := fs[i].value.value;
      if IsLeaf(v) {
        LeafHeight(v);
      } else if i == 8 {
        TimestampHeight(rt, g.createdAt);
      } else if i == 9 {
        TimestampHeight(rt, g.updatedAt);
      } else if i == 13 {
        TimestampHeight(rt, g.nextEventAt.value);
      }
    }
    RecordLow(fs, 2);
  }

  /** However long its lists, an encoded gathering list is at most five levels high, so the decoder's
      limit of 64 never refuses one. */
  lemma GatheringListHeight(rt: Runtime, l: GatheringList)
    ensures Height(GatheringListValue(rt, l)) <= 5
  {
    hide Height, Present, Ascii, WriteAll, GatheringValue;
    var f := (x: Gathering) => GatheringValue(rt, x);
    forall x | x in l.gatherings
      ensures Height(f(x)) <= 3
    {
      GatheringHeight(rt, x);
    }
    ListRecordLow(l.gatherings, f, 3);
    LeafHeight(Uint(l.total));
    RecordLow(GatheringListFields(rt, l), 4);
  }
}
