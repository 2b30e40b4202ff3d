/** The bytes of the field names and of the words of each vocabulary, written out. */
module Names {
  import opened Machine
  import opened Fields

  /** A name of ASCII characters goes out as its character codes. */
  lemma AsciiCodes(s: string)
    requires forall i | 0 <= i < |s| :: s[i] < '\U{80}'
    ensures forall i | 0 <= i < |s| :: Ascii(s)[i] == s[i] as int
  {
  }

  // Field names.

  /** "limit" */
  function LimitName(): seq<Byte> {
    [0x6c, 0x69, 0x6d, 0x69, 0x74]
  }

  lemma LimitBytes()
    ensures Ascii("limit") == LimitName() && |Ascii("limit")| == 5
  {
  }

  /** "offset" */
  function OffsetName(): seq<Byte> {
    [0x6f, 0x66, 0x66, 0x73, 0x65, 0x74]
  }

  lemma OffsetBytes()
    ensures Ascii("offset") == OffsetName() && |Ascii("offset")| == 6
  {
  }

  /** "code" */
  function CodeName(): seq<Byte> {
    [0x63, 0x6f, 0x64, 0x65]
  }

  lemma CodeBytes()
    ensures Ascii("code") == CodeName() && |Ascii("code")| == 4
  {
  }

  /** "field" */
  function FieldName(): seq<Byte> {
    [0x66, 0x69, 0x65, 0x6c, 0x64]
  }

  lemma FieldBytes()
    ensures Ascii("field") == FieldName() && |Ascii("field")| == 5
  {
  }

  /** "message" */
  function MessageName(): seq<Byte> {
    [0x6d, 0x65, 0x73, 0x73, 0x61, 0x67, 0x65]
  }

  lemma MessageBytes()
    ensures Ascii("message") == MessageName() && |Ascii("message")| == 7
  {
  }

  /** "resource_type" */
  function ResourceTypeName(): seq<Byte> {
    [0x72, 0x65, 0x73, 0x6f, 0x75, 0x72, 0x63, 0x65, 0x5f, 0x74, 0x79, 0x70, 0x65]
  }

  lemma ResourceTypeBytes()
    ensures Ascii("resource_type") == ResourceTypeName() && |Ascii("resource_type")| == 13
  {
  }

  /** "body" */
  function BodyName(): seq<Byte> {
    [0x62, 0x6f, 0x64, 0x79]
  }

  lemma BodyBytes()
    ensures Ascii("body") == BodyName() && |Ascii("body")| == 4
  {
  }

  /** "key_id" */
  function KeyIdName(): seq<Byte> {
    [0x6b, 0x65, 0x79, 0x5f, 0x69, 0x64]
  }

  lemma KeyIdBytes()
    ensures Ascii("key_id") == KeyIdName() && |Ascii("key_id")| == 6
  {
  }

  /** "algorithm" */
  function AlgorithmName(): seq<Byte> {
    [0x61, 0x6c, 0x67, 0x6f, 0x72, 0x69, 0x74, 0x68, 0x6d]
  }

  lemma AlgorithmBytes()
    ensures Ascii("algorithm") == AlgorithmName() && |Ascii("algorithm")| == 9
  {
  }

  /** "signature" */
  function SignatureName(): seq<Byte> {
    [0x73, 0x69, 0x67, 0x6e, 0x61, 0x74, 0x75, 0x72, 0x65]
  }

  lemma SignatureBytes()
    ensures Ascii("signature") == SignatureName() && |Ascii("signature")| == 9
  {
  }

  /** "sender_address" */
  function SenderAddressName(): seq<Byte> {
    [0x73, 0x65, 0x6e, 0x64, 0x65, 0x72, 0x5f, 0x61, 0x64, 0x64, 0x72, 0x65, 0x73, 0x73]
  }

  lemma SenderAddressBytes()
    ensures Ascii("sender_address") == SenderAddressName() && |Ascii("sender_address")| == 14
  {
  }

  /** "freq" */
  function FreqName(): seq<Byte> {
    [0x66, 0x72, 0x65, 0x71]
  }

  lemma FreqBytes()
    ensures Ascii("freq") == FreqName() && |Ascii("freq")| == 4
  {
  }

  /** "ordinal" */
  function OrdinalName(): seq<Byte> {
    [0x6f, 0x72, 0x64, 0x69, 0x6e, 0x61, 0x6c]
  }

  lemma OrdinalBytes()
    ensures Ascii("ordinal") == OrdinalName() && |Ascii("ordinal")| == 7
  {
  }

  /** "weekday" */
  function WeekdayName(): seq<Byte> {
    [0x77, 0x65, 0x65, 0x6b, 0x64, 0x61, 0x79]
  }

  lemma WeekdayBytes()
    ensures Ascii("weekday") == WeekdayName() && |Ascii("weekday")| == 7
  {
  }

  /** "interval" */
  function IntervalName(): seq<Byte> {
    [0x69, 0x6e, 0x74, 0x65, 0x72, 0x76, 0x61, 0x6c]
  }

  lemma IntervalBytes()
    ensures Ascii("interval") == IntervalName() && |Ascii("interval")| == 8
  {
  }

  /** "day_of_month" */
  function DayOfMonthName(): seq<Byte> {
    [0x64, 0x61, 0x79, 0x5f, 0x6f, 0x66, 0x5f, 0x6d, 0x6f, 0x6e, 0x74, 0x68]
  }

  lemma DayOfMonthBytes()
    ensures Ascii("day_of_month") == DayOfMonthName() && |Ascii("day_of_month")| == 12
  {
  }

  /** "name" */
  function NameName(): seq<Byte> {
    [0x6e, 0x61, 0x6d, 0x65]
  }

  lemma NameBytes()
    ensures Ascii("name") == NameName() && |Ascii("name")| == 4
  {
  }

  /** "region" */
  function RegionName(): seq<Byte> {
    [0x72, 0x65, 0x67, 0x69, 0x6f, 0x6e]
  }

  lemma RegionBytes()
    ensures Ascii("region") == RegionName() && |Ascii("region")| == 6
  {
  }

  /** "address" */
  function AddressName(): seq<Byte> {
    [0x61, 0x64, 0x64, 0x72, 0x65, 0x73, 0x73]
  }

  lemma AddressBytes()
    ensures Ascii("address") == AddressName() && |Ascii("address")| == 7
  {
  }

  /** "country" */
  function CountryName(): seq<Byte> {
    [0x63, 0x6f, 0x75, 0x6e, 0x74, 0x72, 0x79]
  }

  lemma CountryBytes()
    ensures Ascii("country") == CountryName() && |Ascii("country")| == 7
  {
  }

  /** "latitude" */
  function LatitudeName(): seq<Byte> {
    [0x6c, 0x61, 0x74, 0x69, 0x74, 0x75, 0x64, 0x65]
  }

  lemma LatitudeBytes()
    ensures Ascii("latitude") == LatitudeName() && |Ascii("latitude")| == 8
  {
  }

  /** "locality" */
  function LocalityName(): seq<Byte> {
    [0x6c, 0x6f, 0x63, 0x61, 0x6c, 0x69, 0x74, 0x79]
  }

  lemma LocalityBytes()
    ensures Ascii("locality") == LocalityName() && |Ascii("locality")| == 8
  {
  }

  /** "longitude" */
  function LongitudeName(): seq<Byte> {
    [0x6c, 0x6f, 0x6e, 0x67, 0x69, 0x74, 0x75, 0x64, 0x65]
  }

  lemma LongitudeBytes()
    ensures Ascii("longitude") == LongitudeName() && |Ascii("longitude")| == 9
  {
  }

  /** "postal_code" */
  function PostalCodeName(): seq<Byte> {
    [0x70, 0x6f, 0x73, 0x74, 0x61, 0x6c, 0x5f, 0x63, 0x6f, 0x64, 0x65]
  }

  lemma PostalCodeBytes()
    ensures Ascii("postal_code") == PostalCodeName() && |Ascii("postal_code")| == 11
  {
  }

  /** "can_edit" */
  function CanEditName(): seq<Byte> {
    [0x63, 0x61, 0x6e, 0x5f, 0x65, 0x64, 0x69, 0x74]
  }

  lemma CanEditBytes()
    ensures Ascii("can_edit") == CanEditName() && |Ascii("can_edit")| == 8
  {
  }

  /** "is_admin" */
  function IsAdminName(): seq<Byte> {
    [0x69, 0x73, 0x5f, 0x61, 0x64, 0x6d, 0x69, 0x6e]
  }

  lemma IsAdminBytes()
    ensures Ascii("is_admin") == IsAdminName() && |Ascii("is_admin")| == 8
  {
  }

  /** "is_owner" */
  function IsOwnerName(): seq<Byte> {
    [0x69, 0x73, 0x5f, 0x6f, 0x77, 0x6e, 0x65, 0x72]
  }

  lemma IsOwnerBytes()
    ensures Ascii("is_owner") == IsOwnerName() && |Ascii("is_owner")| == 8
  {
  }

  /** "is_member" */
  function IsMemberName(): seq<Byte> {
    [0x69, 0x73, 0x5f, 0x6d, 0x65, 0x6d, 0x62, 0x65, 0x72]
  }

  lemma IsMemberBytes()
    ensures Ascii("is_member") == IsMemberName() && |Ascii("is_member")| == 9
  {
  }

  /** "can_delete" */
  function CanDeleteName(): seq<Byte> {
    [0x63, 0x61, 0x6e, 0x5f, 0x64, 0x65, 0x6c, 0x65, 0x74, 0x65]
  }

  lemma CanDeleteBytes()
    ensures Ascii("can_delete") == CanDeleteName() && |Ascii("can_delete")| == 10
  {
  }

  /** "has_joined" */
  function HasJoinedName(): seq<Byte> {
    [0x68, 0x61, 0x73, 0x5f, 0x6a, 0x6f, 0x69, 0x6e, 0x65, 0x64]
  }

  lemma HasJoinedBytes()
    ensures Ascii("has_joined") == HasJoinedName() && |Ascii("has_joined")| == 10
  {
  }

  /** "is_organizer" */
  function IsOrganizerName(): seq<Byte> {
    [0x69, 0x73, 0x5f, 0x6f, 0x72, 0x67, 0x61, 0x6e, 0x69, 0x7a, 0x65, 0x72]
  }

  lemma IsOrganizerBytes()
    ensures Ascii("is_organizer") == IsOrganizerName() && |Ascii("is_organizer")| == 12
  {
  }

  /** "is_presenter" */
  function IsPresenterName(): seq<Byte> {
    [0x69, 0x73, 0x5f, 0x70, 0x72, 0x65, 0x73, 0x65, 0x6e, 0x74, 0x65, 0x72]
  }

  lemma IsPresenterBytes()
    ensures Ascii("is_presenter") == IsPresenterName() && |Ascii("is_presenter")| == 12
  {
  }

  /** "can_manage_members" */
  function CanManageMembersName(): seq<Byte> {
    [0x63, 0x61, 0x6e, 0x5f, 0x6d, 0x61, 0x6e, 0x61, 0x67, 0x65, 0x5f, 0x6d, 0x65, 0x6d, 0x62, 0x65, 0x72, 0x73]
  }

  lemma CanManageMembersBytes()
    ensures Ascii("can_manage_members") == CanManageMembersName() && |Ascii("can_manage_members")| == 18
  {
  }

  /** "source" */
  function SourceName(): seq<Byte> {
    [0x73, 0x6f, 0x75, 0x72, 0x63, 0x65]
  }

  lemma SourceBytes()
    ensures Ascii("source") == SourceName() && |Ascii("source")| == 6
  {
  }

  /** "publishing" */
  function PublishingName(): seq<Byte> {
    [0x70, 0x75, 0x62, 0x6c, 0x69, 0x73, 0x68, 0x69, 0x6e, 0x67]
  }

  lemma PublishingBytes()
    ensures Ascii("publishing") == PublishingName() && |Ascii("publishing")| == 10
  {
  }

  /** "can_override" */
  function CanOverrideName(): seq<Byte> {
    [0x63, 0x61, 0x6e, 0x5f, 0x6f, 0x76, 0x65, 0x72, 0x72, 0x69, 0x64, 0x65]
  }

  lemma CanOverrideBytes()
    ensures Ascii("can_override") == CanOverrideName() && |Ascii("can_override")| == 12
  {
  }

  /** "domain" */
  function DomainName(): seq<Byte> {
    [0x64, 0x6f, 0x6d, 0x61, 0x69, 0x6e]
  }

  lemma DomainBytes()
    ensures Ascii("domain") == DomainName() && |Ascii("domain")| == 6
  {
  }

  /** "is_external" */
  function IsExternalName(): seq<Byte> {
    [0x69, 0x73, 0x5f, 0x65, 0x78, 0x74, 0x65, 0x72, 0x6e, 0x61, 0x6c]
  }

  lemma IsExternalBytes()
    ensures Ascii("is_external") == IsExternalName() && |Ascii("is_external")| == 11
  {
  }

  /** "peer_address" */
  function PeerAddressName(): seq<Byte> {
    [0x70, 0x65, 0x65, 0x72, 0x5f, 0x61, 0x64, 0x64, 0x72, 0x65, 0x73, 0x73]
  }

  lemma PeerAddressBytes()
    ensures Ascii("peer_address") == PeerAddressName() && |Ascii("peer_address")| == 12
  {
  }

  /** "id" */
  function IdName(): seq<Byte> {
    [0x69, 0x64]
  }

  lemma IdBytes()
    ensures Ascii("id") == IdName() && |Ascii("id")| == 2
  {
  }

  /** "kind" */
  function KindName(): seq<Byte> {
    [0x6b, 0x69, 0x6e, 0x64]
  }

  lemma KindBytes()
    ensures Ascii("kind") == KindName() && |Ascii("kind")| == 4
  {
  }

  /** "handle" */
  function HandleName(): seq<Byte> {
    [0x68, 0x61, 0x6e, 0x64, 0x6c, 0x65]
  }

  lemma HandleBytes()
    ensures Ascii("handle") == HandleName() && |Ascii("handle")| == 6
  {
  }

  /** "display_name" */
  function DisplayNameName(): seq<Byte> {
    [0x64, 0x69, 0x73, 0x70, 0x6c, 0x61, 0x79, 0x5f, 0x6e, 0x61, 0x6d, 0x65]
  }

  lemma DisplayNameBytes()
    ensures Ascii("display_name") == DisplayNameName() && |Ascii("display_name")| == 12
  {
  }

  /** "origin_domain" */
  function OriginDomainName(): seq<Byte> {
    [0x6f, 0x72, 0x69, 0x67, 0x69, 0x6e, 0x5f, 0x64, 0x6f, 0x6d, 0x61, 0x69, 0x6e]
  }

  lemma OriginDomainBytes()
    ensures Ascii("origin_domain") == OriginDomainName() && |Ascii("origin_domain")| == 13
  {
  }

  /** "slug" */
  function SlugName(): seq<Byte> {
    [0x73, 0x6c, 0x75, 0x67]
  }

  lemma SlugBytes()
    ensures Ascii("slug") == SlugName() && |Ascii("slug")| == 4
  {
  }

  /** "blurb" */
  function BlurbName(): seq<Byte> {
    [0x62, 0x6c, 0x75, 0x72, 0x62]
  }

  lemma BlurbBytes()
    ensures Ascii("blurb") == BlurbName() && |Ascii("blurb")| == 5
  {
  }

  /** "origin" */
  function OriginName(): seq<Byte> {
    [0x6f, 0x72, 0x69, 0x67, 0x69, 0x6e]
  }

  lemma OriginBytes()
    ensures Ascii("origin") == OriginName() && |Ascii("origin")| == 6
  {
  }

  /** "owners" */
  function OwnersName(): seq<Byte> {
    [0x6f, 0x77, 0x6e, 0x65, 0x72, 0x73]
  }

  lemma OwnersBytes()
    ensures Ascii("owners") == OwnersName() && |Ascii("owners")| == 6
  {
  }

  /** "viewer" */
  function ViewerName(): seq<Byte> {
    [0x76, 0x69, 0x65, 0x77, 0x65, 0x72]
  }

  lemma ViewerBytes()
    ensures Ascii("viewer") == ViewerName() && |Ascii("viewer")| == 6
  {
  }

  /** "publish" */
  function PublishName(): seq<Byte> {
    [0x70, 0x75, 0x62, 0x6c, 0x69, 0x73, 0x68]
  }

  lemma PublishBytes()
    ensures Ascii("publish") == PublishName() && |Ascii("publish")| == 7
  {
  }

  /** "created_at" */
  function CreatedAtName(): seq<Byte> {
    [0x63, 0x72, 0x65, 0x61, 0x74, 0x65, 0x64, 0x5f, 0x61, 0x74]
  }

  lemma CreatedAtBytes()
    ensures Ascii("created_at") == CreatedAtName() && |Ascii("created_at")| == 10
  {
  }

  /** "updated_at" */
  function UpdatedAtName(): seq<Byte> {
    [0x75, 0x70, 0x64, 0x61, 0x74, 0x65, 0x64, 0x5f, 0x61, 0x74]
  }

  lemma UpdatedAtBytes()
    ensures Ascii("updated_at") == UpdatedAtName() && |Ascii("updated_at")| == 10
  {
  }

  /** "description" */
  function DescriptionName(): seq<Byte> {
    [0x64, 0x65, 0x73, 0x63, 0x72, 0x69, 0x70, 0x74, 0x69, 0x6f, 0x6e]
  }

  lemma DescriptionBytes()
    ensures Ascii("description") == DescriptionName() && |Ascii("description")| == 11
  {
  }

  /** "event_count" */
  function EventCountName(): seq<Byte> {
    [0x65, 0x76, 0x65, 0x6e, 0x74, 0x5f, 0x63, 0x6f, 0x75, 0x6e, 0x74]
  }

  lemma EventCountBytes()
    ensures Ascii("event_count") == EventCountName() && |Ascii("event_count")| == 11
  {
  }

  /** "member_count" */
  function MemberCountName(): seq<Byte> {
    [0x6d, 0x65, 0x6d, 0x62, 0x65, 0x72, 0x5f, 0x63, 0x6f, 0x75, 0x6e, 0x74]
  }

  lemma MemberCountBytes()
    ensures Ascii("member_count") == MemberCountName() && |Ascii("member_count")| == 12
  {
  }

  /** "next_event_at" */
  function NextEventAtName(): seq<Byte> {
    [0x6e, 0x65, 0x78, 0x74, 0x5f, 0x65, 0x76, 0x65, 0x6e, 0x74, 0x5f, 0x61, 0x74]
  }

  lemma NextEventAtBytes()
    ensures Ascii("next_event_at") == NextEventAtName() && |Ascii("next_event_at")| == 13
  {
  }

  /** "publish_events" */
  function PublishEventsName(): seq<Byte> {
    [0x70, 0x75, 0x62, 0x6c, 0x69, 0x73, 0x68, 0x5f, 0x65, 0x76, 0x65, 0x6e, 0x74, 0x73]
  }

  lemma PublishEventsBytes()
    ensures Ascii("publish_events") == PublishEventsName() && |Ascii("publish_events")| == 14
  {
  }

  /** "total" */
  function TotalName(): seq<Byte> {
    [0x74, 0x6f, 0x74, 0x61, 0x6c]
  }

  lemma TotalBytes()
    ensures Ascii("total") == TotalName() && |Ascii("total")| == 5
  {
  }

  /** "gatherings" */
  function GatheringsName(): seq<Byte> {
    [0x67, 0x61, 0x74, 0x68, 0x65, 0x72, 0x69, 0x6e, 0x67, 0x73]
  }

  lemma GatheringsBytes()
    ensures Ascii("gatherings") == GatheringsName() && |Ascii("gatherings")| == 10
  {
  }

  // Words.

  /** "weekly" */
  function WeeklyWord(): seq<Byte> {
    [0x77, 0x65, 0x65, 0x6b, 0x6c, 0x79]
  }

  lemma WeeklyBytes()
    ensures Ascii("weekly") == WeeklyWord()
  {
  }

  /** "monthly" */
  function MonthlyWord(): seq<Byte> {
    [0x6d, 0x6f, 0x6e, 0x74, 0x68, 0x6c, 0x79]
  }

  lemma MonthlyBytes()
    ensures Ascii("monthly") == MonthlyWord()
  {
  }

  /** "quarterly" */
  function QuarterlyWord(): seq<Byte> {
    [0x71, 0x75, 0x61, 0x72, 0x74, 0x65, 0x72, 0x6c, 0x79]
  }

  lemma QuarterlyBytes()
    ensures Ascii("quarterly") == QuarterlyWord()
  {
  }

  /** "yearly" */
  function YearlyWord(): seq<Byte> {
    [0x79, 0x65, 0x61, 0x72, 0x6c, 0x79]
  }

  lemma YearlyBytes()
    ensures Ascii("yearly") == YearlyWord()
  {
  }

  /** "monday" */
  function MondayWord(): seq<Byte> {
    [0x6d, 0x6f, 0x6e, 0x64, 0x61, 0x79]
  }

  lemma MondayBytes()
    ensures Ascii("monday") == MondayWord()
  {
  }

  /** "tuesday" */
  function TuesdayWord(): seq<Byte> {
    [0x74, 0x75, 0x65, 0x73, 0x64, 0x61, 0x79]
  }

  lemma TuesdayBytes()
    ensures Ascii("tuesday") == TuesdayWord()
  {
  }

  /** "wednesday" */
  function WednesdayWord(): seq<Byte> {
    [0x77, 0x65, 0x64, 0x6e, 0x65, 0x73, 0x64, 0x61, 0x79]
  }

  lemma WednesdayBytes()
    ensures Ascii("wednesday") == WednesdayWord()
  {
  }

  /** "thursday" */
  function ThursdayWord(): seq<Byte> {
    [0x74, 0x68, 0x75, 0x72, 0x73, 0x64, 0x61, 0x79]
  }

  lemma ThursdayBytes()
    ensures Ascii("thursday") == ThursdayWord()
  {
  }

  /** "friday" */
  function FridayWord(): seq<Byte> {
    [0x66, 0x72, 0x69, 0x64, 0x61, 0x79]
  }

  lemma FridayBytes()
    ensures Ascii("friday") == FridayWord()
  {
  }

  /** "saturday" */
  function SaturdayWord(): seq<Byte> {
    [0x73, 0x61, 0x74, 0x75, 0x72, 0x64, 0x61, 0x79]
  }

  lemma SaturdayBytes()
    ensures Ascii("saturday") == SaturdayWord()
  {
  }

  /** "sunday" */
  function SundayWord(): seq<Byte> {
    [0x73, 0x75, 0x6e, 0x64, 0x61, 0x79]
  }

  lemma SundayBytes()
    ensures Ascii("sunday") == SundayWord()
  {
  }

  /** "instance" */
  function InstanceWord(): seq<Byte> {
    [0x69, 0x6e, 0x73, 0x74, 0x61, 0x6e, 0x63, 0x65]
  }

  lemma InstanceBytes()
    ensures Ascii("instance") == InstanceWord()
  {
  }

  /** "organization" */
  function OrganizationWord(): seq<Byte> {
    [0x6f, 0x72, 0x67, 0x61, 0x6e, 0x69, 0x7a, 0x61, 0x74, 0x69, 0x6f, 0x6e]
  }

  lemma OrganizationBytes()
    ensures Ascii("organization") == OrganizationWord()
  {
  }

  /** "gathering" */
  function GatheringWord(): seq<Byte> {
    [0x67, 0x61, 0x74, 0x68, 0x65, 0x72, 0x69, 0x6e, 0x67]
  }

  lemma GatheringBytes()
    ensures Ascii("gathering") == GatheringWord()
  {
  }

  /** "unset" */
  function UnsetWord(): seq<Byte> {
    [0x75, 0x6e, 0x73, 0x65, 0x74]
  }

  lemma UnsetBytes()
    ensures Ascii("unset") == UnsetWord()
  {
  }

  /** "in" */
  function InWord(): seq<Byte> {
    [0x69, 0x6e]
  }

  lemma InBytes()
    ensures Ascii("in") == InWord()
  {
  }

  /** "out" */
  function OutWord(): seq<Byte> {
    [0x6f, 0x75, 0x74]
  }

  lemma OutBytes()
    ensures Ascii("out") == OutWord()
  {
  }

  /** "user" */
  function UserWord(): seq<Byte> {
    [0x75, 0x73, 0x65, 0x72]
  }

  lemma UserBytes()
    ensures Ascii("user") == UserWord()
  {
  }
}
