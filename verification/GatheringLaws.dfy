/** What holds of every gathering list that arrives: it can be sent again and comes back, and only its declared
    entries matter, at every level. */
module GatheringLaws {
  import opened Machine
  import opened CborTree
  import opened Parser
  import opened Fields
  import opened Collections
  import opened Gatherings
  import opened GatheringReaders

  // Arriving and being sent again.

  /** Its instants can be written and read again. */
  predicate TimesReturn(rt: Runtime, g: Gathering) {
    && ValidTime(rt, g.createdAt) && ValidTime(rt, g.updatedAt)
    && (g.nextEventAt.Some? ==> ValidTime(rt, g.nextEventAt.value))
  }

  lemma OwnerRefValidIf(rt: Runtime, v: Value, o: OwnerRef)
    requires Judged(rt, v) && HoldsOwnerRef(v, o)
    ensures OwnerRefValid(rt, o)
  {
    var fs := OwnerRefFields(o);
    assert Alike(v, fs[0]) && Alike(v, fs[1]) && Alike(v, fs[2]) && Alike(v, fs[3]) && Alike(v, fs[4]);
    hide Judged, Alike, HoldsAlike, ValidText, TextField, Ascii;
    TextFieldValid(rt, v, "id", Some(o.id));
    TextFieldValid(rt, v, "kind", Some(o.kind));
    TextFieldValid(rt, v, "handle", Some(o.handle));
    TextFieldValid(rt, v, "display_name", Some(o.displayName));
    TextFieldValid(rt, v, "origin_domain", Some(o.originDomain));
  }

  lemma PublishDecisionValidIf(rt: Runtime, v: Value, d: PublishDecision)
    requires Judged(rt, v) && HoldsPublishDecision(v, d)
    ensures PublishDecisionValid(rt, d)
  {
    var fs := PublishDecisionFields(d);
    assert Alike(v, fs[0]);
    hide Judged, Alike, HoldsAlike, ValidText, TextField, BoolField, Ascii;
    TextFieldValid(rt, v, "source", Some(d.source));
  }

  lemma OriginValidIf(rt: Runtime, v: Value, o: Origin)
    requires Judged(rt, v) && HoldsOrigin(v, o)
    ensures OriginValid(rt, o)
  {
    var fs := OriginFields(o);
    assert Alike(v, fs[0]) && Alike(v, fs[2]);
    hide Judged, Alike, HoldsAlike, ValidText, TextField, BoolField, Ascii;
    TextFieldValid(rt, v, "domain", Some(o.domain));
    TextFieldValid(rt, v, "peer_address", o.peerAddress);
  }

  lemma OwnersValid(rt: Runtime, root: Value, owners: seq<OwnerRef>)
    requires Judged(rt, root) && HoldsOwners(root, owners)
    ensures |owners| < TWO_64 && (forall x | x in owners :: OwnerRefValid(rt, x)) && OwnersDeclared(owners)
  {
    hide Judged, MapGet, HoldsOwnerRef, OwnerRefValid, OwnerRefDeclared, Ascii;
    FoundJudged(rt, root, Ascii("owners"));
    var v := MapGet(root, Ascii("owners")).value;
    if owners != [] {
      ItemJudged(rt, v, 0);
    }
    forall x | x in owners
      ensures OwnerRefValid(rt, x) && OwnerRefDeclared(x)
    {
      var i :| 0 <= i < |owners| && owners[i] == x;
      ItemJudged(rt, v, i);
      OwnerRefValidIf(rt, v.items[i], x);
      KindDeclared(v.items[i], x);
    }
  }

  lemma KindDeclared(v: Value, o: OwnerRef)
    requires HoldsOwnerRef(v, o)
    ensures OwnerRefDeclared(o)
  {
    hide HoldsAlike, OwnerKinds;
  }

  lemma NamesValid(rt: Runtime, root: Value, g: Gathering)
    requires Judged(rt, root) && HoldsNames(root, g.id, g.slug, g.originDomain, g.name, g.blurb, g.description)
    ensures ValidText(rt, g.id) && ValidText(rt, g.slug) && ValidText(rt, g.originDomain)
    ensures ValidText(rt, g.name) && ValidText(rt, g.blurb) && ValidText(rt, g.description)
  {
    hide Judged, Alike, ValidText, TextField, Ascii;
    TextFieldValid(rt, root, "id", Some(g.id));
    TextFieldValid(rt, root, "slug", Some(g.slug));
    TextFieldValid(rt, root, "origin_domain", Some(g.originDomain));
    TextFieldValid(rt, root, "name", Some(g.name));
    TextFieldValid(rt, root, "blurb", Some(g.blurb));
    TextFieldValid(rt, root, "description", Some(g.description));
  }

  lemma PartsValid(rt: Runtime, root: Value, g: Gathering)
    requires Judged(rt, root)
    requires HoldsParts(rt, root, g.publish, g.origin, g.viewer, g.createdAt, g.updatedAt)
    ensures PublishDecisionValid(rt, g.publish) && OriginValid(rt, g.origin) && PublishDecisionDeclared(g.publish)
  {
    FoundJudged(rt, root, Ascii("publish"));
    FoundJudged(rt, root, Ascii("origin"));
    SourceDeclared(MapGet(root, Ascii("publish")).value, g.publish);
    hide Judged, MapGet, HoldsPublishDecision, HoldsOrigin, HoldsViewerContext, HoldsTime, Ascii,
      PublishDecisionValid, OriginValid, PublishDecisionDeclared;
    PublishDecisionValidIf(rt, MapGet(root, Ascii("publish")).value, g.publish);
    OriginValidIf(rt, MapGet(root, Ascii("origin")).value, g.origin);
  }

  lemma SourceDeclared(v: Value, d: PublishDecision)
    requires HoldsPublishDecision(v, d)
    ensures PublishDecisionDeclared(d)
  {
    hide HoldsAlike, PublishSources;
  }

  lemma GatheringValidIf(rt: Runtime, root: Value, g: Gathering)
    requires Judged(rt, root) && HoldsGathering(rt, root, g)
    ensures GatheringDeclared(g) && (TimesReturn(rt, g) ==> GatheringValid(rt, g))
  {
    hide Judged, HoldsNames, HoldsParts, HoldsOwners, Alike, HoldsTime, OwnerRefValid, ValidText, ValidTime,
      PublishDecisionValid, OriginValid, PublishDecisionDeclared, OwnersDeclared, PublishSettings, TextField, UintField;
    NamesValid(rt, root, g);
    OwnersValid(rt, root, g.owners);
    TextFieldValid(rt, root, "publish_events", Some(g.publishEvents));
    PartsValid(rt, root, g);
  }

  lemma GatheringListValidIf(rt: Runtime, root: Value, l: GatheringList)
    requires Judged(rt, root) && HoldsGatheringList(rt, root, l)
    ensures GatheringListDeclared(l)
    ensures (forall x | x in l.gatherings :: TimesReturn(rt, x)) ==> GatheringListValid(rt, l)
  {
    hide Judged, MapGet, HoldsGathering, GatheringValid, GatheringDeclared, TimesReturn, Ascii, Alike, UintField;
    FoundJudged(rt, root, Ascii("gatherings"));
    var v, gs := MapGet(root, Ascii("gatherings")).value, l.gatherings;
    if gs != [] {
      ItemJudged(rt, v, 0);
    }
    forall x | x in gs
      ensures GatheringDeclared(x) && (TimesReturn(rt, x) ==> GatheringValid(rt, x))
    {
      var i :| 0 <= i < |gs| && gs[i] == x;
      ItemJudged(rt, v, i);
      GatheringValidIf(rt, v.items[i], x);
    }
  }

  /** Any payload accepted as a gathering list, whatever its key order and extra keys at every level, holds one
      that comes back when it is sent again, provided its instants can be written and read again. */
  lemma GatheringListCanonical(rt: Runtime, b: seq<Byte>, l: GatheringList)
    requires AcceptsAscii(rt) && DecodeGatheringList(rt, b) == Ok(l)
    requires forall x | x in l.gatherings :: TimesReturn(rt, x)
    ensures GatheringListValid(rt, l) && DecodeGatheringList(rt, EncodeGatheringList(rt, l)) == Ok(l)
  {
    hide Decode, GatheringListOf, HoldsGatheringList, Judged, EncodeGatheringList, GatheringListValid, AcceptsAscii,
      GatheringListDeclared, TimesReturn;
    var root := Decode(rt, b).value;
    DecodedJudged(rt, b);
    GatheringListExact(rt, root, l);
    GatheringListValidIf(rt, root, l);
    GatheringListRoundTrip(rt, l);
  }

  // Only the declared entries matter.

  function NameKeys(): set<seq<Byte>> {
    {Ascii("id"), Ascii("slug"), Ascii("origin_domain"), Ascii("name"), Ascii("blurb"), Ascii("description")}
  }

  function CountKeys(): set<seq<Byte>> {
    {Ascii("owners"), Ascii("member_count"), Ascii("event_count"), Ascii("next_event_at"), Ascii("publish_events")}
  }

  function PartKeys(): set<seq<Byte>> {
    {Ascii("publish"), Ascii("origin"), Ascii("viewer"), Ascii("created_at"), Ascii("updated_at")}
  }

  function GatheringKeys(): set<seq<Byte>> {
    NameKeys() + CountKeys() + PartKeys()
  }

  function GatheringListKeys(): set<seq<Byte>> {
    {Ascii("gatherings"), Ascii("total")}
  }

  /** The same declared entries, each once, in any order and among any others. */
  ghost predicate SameMap(v: Value, w: Value, keys: set<seq<Byte>>) {
    v.Map? && w.Map? && SameDeclared(v.entries, w.entries, keys) && DistinctDeclared(v.entries, keys)
  }

  lemma SameLookup(v: Value, w: Value, keys: set<seq<Byte>>, key: seq<Byte>)
    requires SameMap(v, w, keys) && key in keys
    ensures MapGet(w, key) == MapGet(v, key) && Require(w, key) == Require(v, key)
  {
    hide SameDeclared, DistinctDeclared, Get;
    DeclaredLookup(v.entries, w.entries, keys, key);
  }

  lemma SameNames(rt: Runtime, v: Value, w: Value)
    requires SameMap(v, w, GatheringKeys())
    ensures GatheringNames(rt, w) == GatheringNames(rt, v)
  {
    hide SameMap, MapGet, Require, AsText, Ascii, CountKeys, PartKeys;
    SameLookup(v, w, GatheringKeys(), Ascii("id"));
    SameLookup(v, w, GatheringKeys(), Ascii("slug"));
    SameLookup(v, w, GatheringKeys(), Ascii("origin_domain"));
    SameLookup(v, w, GatheringKeys(), Ascii("name"));
    SameLookup(v, w, GatheringKeys(), Ascii("blurb"));
    SameLookup(v, w, GatheringKeys(), Ascii("description"));
  }

  lemma SameCounts(rt: Runtime, v: Value, w: Value)
    requires SameMap(v, w, GatheringKeys())
    ensures GatheringCounts(rt, w) == GatheringCounts(rt, v)
  {
    hide SameMap, MapGet, Require, AsU64, AsMember, DecArray, AsTimestamp, Ascii, NameKeys, PartKeys, PublishSettings;
    SameLookup(v, w, GatheringKeys(), Ascii("owners"));
    SameLookup(v, w, GatheringKeys(), Ascii("member_count"));
    SameLookup(v, w, GatheringKeys(), Ascii("event_count"));
    SameLookup(v, w, GatheringKeys(), Ascii("next_event_at"));
    SameLookup(v, w, GatheringKeys(), Ascii("publish_events"));
  }

  lemma SameParts(rt: Runtime, v: Value, w: Value)
    requires SameMap(v, w, GatheringKeys())
    ensures GatheringParts(rt, w) == GatheringParts(rt, v)
  {
    hide SameMap, MapGet, Require, AsTimestamp, PublishDecisionOf, OriginOf, ViewerContextOf, Ascii, NameKeys,
      CountKeys;
    SameLookup(v, w, GatheringKeys(), Ascii("publish"));
    SameLookup(v, w, GatheringKeys(), Ascii("origin"));
    SameLookup(v, w, GatheringKeys(), Ascii("viewer"));
    SameLookup(v, w, GatheringKeys(), Ascii("created_at"));
    SameLookup(v, w, GatheringKeys(), Ascii("updated_at"));
  }

  /** Permuting a gathering's entries or adding undeclared ones changes neither what is read nor whether it is. */
  lemma GatheringIgnoresUndeclared(rt: Runtime, v: Value, w: Value)
    requires SameMap(v, w, GatheringKeys())
    ensures GatheringOf(rt, w) == GatheringOf(rt, v)
  {
    hide SameMap, GatheringKeys, GatheringNames, GatheringCounts, GatheringParts;
    SameNames(rt, v, w);
    SameCounts(rt, v, w);
    SameParts(rt, v, w);
  }

  lemma {:induction false} ReadAlike<E>(vs: seq<Value>, ws: seq<Value>, g: Value -> Result<E>)
    requires |vs| == |ws| && forall i | 0 <= i < |vs| :: g(ws[i]) == g(vs[i])
    ensures ReadAll(ws, g) == ReadAll(vs, g)
  {
    if vs != [] {
      ReadAlike(vs[..|vs| - 1], ws[..|ws| - 1], g);
    }
  }

  /** The same list over: each gathering permuted or given undeclared entries. */
  ghost predicate SameItems(v: Value, w: Value) {
    && v.Array? && w.Array? && |v.items| == |w.items|
    && forall i | 0 <= i < |v.items| :: SameMap(v.items[i], w.items[i], GatheringKeys())
  }

  lemma SameItemsRead(rt: Runtime, v: Value, w: Value, read: Value -> Result<Gathering>)
    requires SameItems(v, w) && forall x :: read(x) == GatheringOf(rt, x)
    ensures DecArray(w, read) == DecArray(v, read)
  {
    hide SameMap, GatheringOf, ReadAll, GatheringKeys;
    forall i | 0 <= i < |v.items|
      ensures read(w.items[i]) == read(v.items[i])
    {
      GatheringIgnoresUndeclared(rt, v.items[i], w.items[i]);
    }
    ReadAlike(v.items, w.items, read);
  }

  /** So in the list too, and in the gatherings inside it at the same time. */
  lemma GatheringListIgnoresUndeclared(rt: Runtime, u: Value, v: Value, w: Value)
    requires SameMap(u, v, GatheringListKeys()) && v.Map? && w.Map?
    requires MapGet(w, Ascii("total")) == MapGet(v, Ascii("total"))
    requires MapGet(w, Ascii("gatherings")) == MapGet(v, Ascii("gatherings"))
          || (&& MapGet(v, Ascii("gatherings")).Some? && MapGet(w, Ascii("gatherings")).Some?
              && SameItems(MapGet(v, Ascii("gatherings")).value, MapGet(w, Ascii("gatherings")).value))
    ensures GatheringListOf(rt, w) == GatheringListOf(rt, u)
  {
    SameLookup(u, v, GatheringListKeys(), Ascii("gatherings"));
    SameLookup(u, v, GatheringListKeys(), Ascii("total"));
    hide SameMap, SameItems, MapGet, AsU64, DecArray, GatheringOf, Ascii;
    if MapGet(w, Ascii("gatherings")) != MapGet(v, Ascii("gatherings")) {
      SameItemsRead(rt, MapGet(v, Ascii("gatherings")).value, MapGet(w, Ascii("gatherings")).value,
                    (x: Value) => GatheringOf(rt, x));
    }
  }
}
