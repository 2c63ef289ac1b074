/** The record shapes of the service and their field constraints: users,
    user updates, events, event updates, user/event relationships, email
    requests and email delivery statuses. Each shape is a datatype with a
    `Valid*` predicate for its constraints. Where a shape is read back from
    a stored record, a `Parse*` function decodes it from an `Item`,
    succeeding exactly when the record validates, and a `*Item` function
    encodes it, with a lemma that decoding undoes encoding. */
module Models {
  import opened Values

  predicate LenBetween(s: string, lo: nat, hi: nat)
  {
    lo <= |s| <= hi
  }

  /** The shape of an e-mail address, reduced to one `@` with a non-empty
      local part before it and a non-empty domain after it. */
  predicate IsEmail(s: string)
  {
    exists i :: 0 < i < |s| - 1 && s[i] == '@' && '@' !in s[..i] && '@' !in s[i + 1..]
  }

  // ----- decoding single attributes -----

  /** A required string attribute. */
  function ReqStr(item: Item, k: string): Option<string>
  {
    if k in item && item[k].Str? then Some(item[k].s) else None
  }

  /** An `Optional[str]` attribute that may be omitted: `Some(None)` when
      absent or null, `None` when of the wrong type. */
  function OptStr(item: Item, k: string): Option<Option<string>>
  {
    if k !in item || item[k].Null? then Some(None)
    else if item[k].Str? then Some(Some(item[k].s))
    else None
  }

  /** An `Optional[int]` attribute with default `default` when omitted. */
  function OptInt(item: Item, k: string, default: Option<int>): Option<Option<int>>
  {
    if k !in item then Some(default)
    else if item[k].Null? then Some(None)
    else if item[k].Num? then Some(Some(item[k].n))
    else None
  }

  function StrOrNull(o: Option<string>): Value
  {
    if o.Some? then Str(o.value) else Null
  }

  function NumOrNull(o: Option<int>): Value
  {
    if o.Some? then Num(o.value) else Null
  }

  predicate OptLenBetween(o: Option<string>, lo: nat, hi: nat)
  {
    o.Some? ==> LenBetween(o.value, lo, hi)
  }

  // ----- users -----

  datatype Gender = Male | Female | Other | PreferNotToSay

  function GenderName(g: Gender): string
  {
    match g
    case Male => "male"
    case Female => "female"
    case Other => "other"
    case PreferNotToSay => "prefer_not_to_say"
  }

  function ParseGender(s: string): (r: Option<Gender>)
    ensures r.Some? <==> s in ["male", "female", "other", "prefer_not_to_say"]
    ensures r.Some? ==> GenderName(r.value) == s
  {
    if s == "male" then Some(Male)
    else if s == "female" then Some(Female)
    else if s == "other" then Some(Other)
    else if s == "prefer_not_to_say" then Some(PreferNotToSay)
    else None
  }

  lemma GenderRoundTrip(g: Gender)
    ensures ParseGender(GenderName(g)) == Some(g)
  {
  }

  /** `UserBase`: the fields of a user; the two counters default to 0. */
  datatype UserBase = UserBase(
    firstName: string,
    lastName: string,
    phoneNumber: Option<string>,
    email: string,
    avatar: Option<string>,
    gender: Option<Gender>,
    jobTitle: Option<string>,
    company: Option<string>,
    city: Option<string>,
    state: Option<string>,
    hosted: Option<int>,
    attended: Option<int>)

  /** Names of 1 to 50 characters, a phone number (required, may be null)
      of 1 to 50 characters, an e-mail address. */
  predicate ValidUserBase(u: UserBase)
  {
    && LenBetween(u.firstName, 1, 50)
    && LenBetween(u.lastName, 1, 50)
    && OptLenBetween(u.phoneNumber, 1, 50)
    && IsEmail(u.email)
  }

  /** `UserResponse`: a user with its id. */
  datatype User = User(base: UserBase, id: string)

  function GenderValue(g: Option<Gender>): Value
  {
    if g.Some? then Str(GenderName(g.value)) else Null
  }

  /** The record `user.dict()` plus `id` gives. */
  function UserItem(u: User): (item: Item)
    ensures item.Keys == {"firstName", "lastName", "phoneNumber", "email", "avatar", "gender",
                          "jobTitle", "company", "city", "state", "number_of_events_hosted",
                          "number_of_events_attended", "id"}
  {
    map[
      "firstName" := Str(u.base.firstName),
      "lastName" := Str(u.base.lastName),
      "phoneNumber" := StrOrNull(u.base.phoneNumber),
      "email" := Str(u.base.email),
      "avatar" := StrOrNull(u.base.avatar),
      "gender" := GenderValue(u.base.gender),
      "jobTitle" := StrOrNull(u.base.jobTitle),
      "company" := StrOrNull(u.base.company),
      "city" := StrOrNull(u.base.city),
      "state" := StrOrNull(u.base.state),
      "number_of_events_hosted" := NumOrNull(u.base.hosted),
      "number_of_events_attended" := NumOrNull(u.base.attended),
      "id" := Str(u.id)]
  }

  function OptGender(item: Item, k: string): Option<Option<Gender>>
  {
    if k !in item || item[k].Null? then Some(None)
    else if item[k].Str? && ParseGender(item[k].s).Some? then Some(ParseGender(item[k].s))
    else None
  }

  /** Validation of a stored record as a `UserResponse`; attributes the
      model does not declare are ignored. */
  function ParseUser(item: Item): (r: Option<User>)
    ensures r.Some? ==> ValidUserBase(r.value.base)
    ensures r.Some? && "number_of_events_hosted" !in item ==> r.value.base.hosted == Some(0)
    ensures r.Some? && "number_of_events_attended" !in item ==> r.value.base.attended == Some(0)
  {
    var first, last, email, id := ReqStr(item, "firstName"), ReqStr(item, "lastName"),
                                  ReqStr(item, "email"), ReqStr(item, "id");
    var phone := if "phoneNumber" in item then OptStr(item, "phoneNumber") else None;
    var avatar, gender := OptStr(item, "avatar"), OptGender(item, "gender");
    var job, company, city, state := OptStr(item, "jobTitle"), OptStr(item, "company"),
                                     OptStr(item, "city"), OptStr(item, "state");
    var hosted := OptInt(item, "number_of_events_hosted", Some(0));
    var attended := OptInt(item, "number_of_events_attended", Some(0));
    if first.None? || last.None? || email.None? || id.None? || phone.None? || avatar.None?
       || gender.None? || job.None? || company.None? || city.None? || state.None?
       || hosted.None? || attended.None?
    then None
    else
      var u := UserBase(first.value, last.value, phone.value, email.value, avatar.value,
                        gender.value, job.value, company.value, city.value, state.value,
                        hosted.value, attended.value);
      if ValidUserBase(u) then Some(User(u, id.value)) else None
  }

  /** A valid user written as a record reads back as itself. */
  lemma UserRoundTrip(u: User)
    requires ValidUserBase(u.base)
    ensures ParseUser(UserItem(u)) == Some(u)
  {
    var item := UserItem(u);
    assert ReqStr(item, "firstName") == Some(u.base.firstName);
    assert ReqStr(item, "lastName") == Some(u.base.lastName);
    assert ReqStr(item, "email") == Some(u.base.email);
    assert ReqStr(item, "id") == Some(u.id);
    assert OptStr(item, "phoneNumber") == Some(u.base.phoneNumber);
    assert OptStr(item, "avatar") == Some(u.base.avatar);
    assert OptStr(item, "jobTitle") == Some(u.base.jobTitle);
    assert OptStr(item, "company") == Some(u.base.company);
    assert OptStr(item, "city") == Some(u.base.city);
    assert OptStr(item, "state") == Some(u.base.state);
    assert OptInt(item, "number_of_events_hosted", Some(0)) == Some(u.base.hosted);
    assert OptInt(item, "number_of_events_attended", Some(0)) == Some(u.base.attended);
    assert OptGender(item, "gender") == Some(u.base.gender) by {
      if u.base.gender.Some? {
        GenderRoundTrip(u.base.gender.value);
      }
    }
  }

  /** A field of an update model: left out of the request, or set (possibly
      to null). `dict(exclude_unset=True)` keeps exactly the set ones. */
  datatype Patch<T> = Unset | SetTo(value: T)

  /** `UserUpdate`: every field optional except `phoneNumber`, which must be
      present (possibly null). */
  datatype UserUpdate = UserUpdate(
    firstName: Patch<Option<string>>,
    lastName: Patch<Option<string>>,
    phoneNumber: Option<string>,
    email: Patch<Option<string>>,
    avatar: Patch<Option<string>>,
    gender: Patch<Option<Gender>>,
    jobTitle: Patch<Option<string>>,
    company: Patch<Option<string>>,
    city: Patch<Option<string>>,
    state: Patch<Option<string>>)

  predicate PatchLenBetween(p: Patch<Option<string>>, lo: nat, hi: nat)
  {
    p.SetTo? ==> OptLenBetween(p.value, lo, hi)
  }

  predicate ValidUserUpdate(u: UserUpdate)
  {
    && PatchLenBetween(u.firstName, 1, 50)
    && PatchLenBetween(u.lastName, 1, 50)
    && OptLenBetween(u.phoneNumber, 1, 50)
    && (u.email.SetTo? && u.email.value.Some? ==> IsEmail(u.email.value.value))
  }

  /** One declared field of an update model: its name, whether the request
      set it, and its value. */
  datatype Slot = Slot(key: string, present: bool, value: Value)

  /** The declared field names, in order. */
  function SlotKeys(slots: seq<Slot>): (ks: seq<string>)
    ensures |ks| == |slots|
    ensures forall i :: 0 <= i < |slots| ==> ks[i] == slots[i].key
  {
    if slots == [] then [] else [slots[0].key] + SlotKeys(slots[1..])
  }

  predicate DistinctSlots(slots: seq<Slot>)
  {
    forall i, j :: 0 <= i < j < |slots| ==> slots[i].key != slots[j].key
  }

  /** `model.dict(exclude_unset=True)`: the fields the request set, in
      declaration order. */
  function Keep(slots: seq<Slot>): (d: seq<Entry>)
    ensures |d| <= |slots|
    ensures forall k :: k in KeysOf(d) ==> k in SlotKeys(slots)
  {
    if slots == [] then []
    else
      var rest := Keep(slots[1..]);
      assert forall k :: k in SlotKeys(slots[1..]) ==> k in SlotKeys(slots) by {
        assert SlotKeys(slots) == [slots[0].key] + SlotKeys(slots[1..]);
      }
      if slots[0].present then
        var d := [Entry(slots[0].key, slots[0].value)] + rest;
        assert KeysOf(d) == [slots[0].key] + KeysOf(rest);
        d
      else rest
  }

  lemma {:induction false} KeepDistinct(slots: seq<Slot>)
    requires DistinctSlots(slots)
    ensures DistinctKeys(Keep(slots))
  {
    if slots != [] {
      var tail := slots[1..];
      assert DistinctSlots(tail) by {
        forall i, j | 0 <= i < j < |tail| ensures tail[i].key != tail[j].key {
          assert tail[i] == slots[i + 1] && tail[j] == slots[j + 1];
        }
      }
      KeepDistinct(tail);
      var rest := Keep(tail);
      assert slots[0].key !in SlotKeys(tail);
      if slots[0].present {
        var d := Keep(slots);
        assert d == [Entry(slots[0].key, slots[0].value)] + rest;
        forall i, j | 0 <= i < j < |d| ensures d[i].key != d[j].key {
          assert d[j] == rest[j - 1];
          assert rest[j - 1].key in KeysOf(rest);
          if i > 0 {
            assert d[i] == rest[i - 1];
          }
        }
      }
    }
  }

  /** A field the request set is in the dict with its value. */
  lemma {:induction false} KeepFinds(slots: seq<Slot>, i: nat)
    requires i < |slots| && slots[i].present
    ensures Entry(slots[i].key, slots[i].value) in Keep(slots)
  {
    if i > 0 {
      assert slots[1..][i - 1] == slots[i];
      KeepFinds(slots[1..], i - 1);
    }
  }

  lemma {:induction false} KeepEmptyIff(slots: seq<Slot>)
    ensures Keep(slots) == [] <==> forall i :: 0 <= i < |slots| ==> !slots[i].present
  {
    if slots != [] {
      KeepEmptyIff(slots[1..]);
      assert forall i :: 1 <= i < |slots| ==> slots[i] == slots[1..][i - 1];
    }
  }

  /** A field the request left out is not in the dict. */
  lemma {:induction false} AbsentNotKept(slots: seq<Slot>, k: string)
    requires forall i :: 0 <= i < |slots| && slots[i].key == k ==> !slots[i].present
    ensures k !in KeysOf(Keep(slots))
  {
    if slots != [] {
      var tail := slots[1..];
      assert forall i :: 0 <= i < |tail| ==> tail[i] == slots[i + 1];
      AbsentNotKept(tail, k);
      if slots[0].present {
        assert KeysOf(Keep(slots)) == [slots[0].key] + KeysOf(Keep(tail));
      }
    }
  }

  /** Every entry of the dict comes from a slot with its name and value. */
  lemma {:induction false} KeepFrom(slots: seq<Slot>, e: Entry)
    requires e in Keep(slots)
    ensures exists i :: 0 <= i < |slots| && slots[i].present && slots[i].value == e.value && slots[i].key == e.key
  {
    if slots != [] {
      if slots[0].present && e == Entry(slots[0].key, slots[0].value) {
        assert slots[0].value == e.value;
      } else {
        KeepFrom(slots[1..], e);
        var i :| 0 <= i < |slots[1..]| && slots[1..][i].present && slots[1..][i].value == e.value && slots[1..][i].key == e.key;
        assert slots[i + 1] == slots[1..][i];
      }
    }
  }

  function StrSlot(k: string, p: Patch<Option<string>>): Slot
  {
    Slot(k, p.SetTo?, if p.SetTo? then StrOrNull(p.value) else Null)
  }

  const UserUpdateKeys: seq<string> :=
    ["firstName", "lastName", "phoneNumber", "email", "avatar", "gender",
     "jobTitle", "company", "city", "state"]

  function UserUpdateSlots(u: UserUpdate): (slots: seq<Slot>)
    ensures SlotKeys(slots) == UserUpdateKeys
  {
    [StrSlot("firstName", u.firstName), StrSlot("lastName", u.lastName),
     Slot("phoneNumber", true, StrOrNull(u.phoneNumber)),
     StrSlot("email", u.email), StrSlot("avatar", u.avatar),
     Slot("gender", u.gender.SetTo?, if u.gender.SetTo? then GenderValue(u.gender.value) else Null),
     StrSlot("jobTitle", u.jobTitle), StrSlot("company", u.company),
     StrSlot("city", u.city), StrSlot("state", u.state)]
  }

  lemma UserUpdateKeysDistinct()
    ensures forall i, j :: 0 <= i < j < |UserUpdateKeys| ==> UserUpdateKeys[i] != UserUpdateKeys[j]
  {
  }

  /** `user.dict(exclude_unset=True)`. Because `phoneNumber` is required,
      the dict is never empty. */
  function UserUpdateData(u: UserUpdate): (d: seq<Entry>)
    ensures DistinctKeys(d)
    ensures Entry("phoneNumber", StrOrNull(u.phoneNumber)) in d
    ensures forall k :: k in KeysOf(d) ==> k in UserUpdateKeys
  {
    var slots := UserUpdateSlots(u);
    UserUpdateKeysDistinct();
    KeepDistinct(slots);
    KeepFinds(slots, 2);
    Keep(slots)
  }

  /** Validation of every record of a list against one response model:
      the list validates when each record does. */
  function ParseAll<T>(items: seq<Item>, parse: Item -> Option<T>): (r: Option<seq<T>>)
    ensures r.Some? <==> forall i :: 0 <= i < |items| ==> parse(items[i]).Some?
    ensures r.Some? ==> |r.value| == |items|
    ensures r.Some? ==> forall i :: 0 <= i < |items| ==> Some(r.value[i]) == parse(items[i])
  {
    if items == [] then Some([])
    else
      var head, rest := parse(items[0]), ParseAll(items[1..], parse);
      assert forall i :: 1 <= i < |items| ==> items[i] == items[1..][i - 1];
      if head.None? || rest.None? then None
      else Some([head.value] + rest.value)
  }

  // ----- events -----

  /** A datetime, known by the text its `isoformat()` returns. */
  datatype DateTime = DateTime(iso: string)

  /** A datetime attribute: a datetime object, or the text of one as stored.
      The syntax of that text is not modelled beyond being non-empty. */
  function ParseDateTime(item: Item, k: string): Option<DateTime>
  {
    if k in item && item[k].Time? && item[k].iso != "" then Some(DateTime(item[k].iso))
    else if k in item && item[k].Str? && item[k].s != "" then Some(DateTime(item[k].s))
    else None
  }

  /** `EventBase`. */
  datatype EventBase = EventBase(
    slug: Option<string>,
    title: string,
    description: Option<string>,
    startAt: DateTime,
    endAt: DateTime,
    venue: Option<string>,
    maxCapacity: Option<int>,
    owner: string)

  /** A slug, when given, of 1 to 100 characters; a title of 1 to 200; a
      capacity, when given, of at least 1; a non-empty owner. The ISO text
      of a datetime is never empty. */
  predicate ValidEventBase(e: EventBase)
  {
    && OptLenBetween(e.slug, 1, 100)
    && LenBetween(e.title, 1, 200)
    && (e.maxCapacity.Some? ==> e.maxCapacity.value >= 1)
    && |e.owner| >= 1
    && e.startAt.iso != "" && e.endAt.iso != ""
  }

  /** `EventResponse`: an event with its id. */
  datatype Event = Event(base: EventBase, id: string)

  /** The dict of an event with its id, the two datetimes given by
      `datesAs` (datetime objects from `dict()`/`model_dump()`, or their
      ISO text as stored). */
  function EventRecord(ev: Event, datesAs: DateTime -> Value): (item: Item)
    ensures item.Keys == {"slug", "title", "description", "startAt", "endAt", "venue",
                          "maxCapacity", "owner", "id"}
  {
    map[
      "slug" := StrOrNull(ev.base.slug),
      "title" := Str(ev.base.title),
      "description" := StrOrNull(ev.base.description),
      "startAt" := datesAs(ev.base.startAt),
      "endAt" := datesAs(ev.base.endAt),
      "venue" := StrOrNull(ev.base.venue),
      "maxCapacity" := NumOrNull(ev.base.maxCapacity),
      "owner" := Str(ev.base.owner),
      "id" := Str(ev.id)]
  }

  function AsObject(d: DateTime): Value { Time(d.iso) }

  function AsText(d: DateTime): Value { Str(d.iso) }

  /** `EventResponse(**event).model_dump()`: the datetimes stay objects. */
  function EventDump(ev: Event): Item
  {
    EventRecord(ev, AsObject)
  }

  /** An event as stored, its datetimes converted to ISO text. */
  function EventItem(ev: Event): Item
  {
    EventRecord(ev, AsText)
  }

  /** Validation of a record as an `EventResponse`. */
  function ParseEvent(item: Item): (r: Option<Event>)
    ensures r.Some? ==> ValidEventBase(r.value.base)
  {
    var slug, title, description := OptStr(item, "slug"), ReqStr(item, "title"), OptStr(item, "description");
    var startAt, endAt := ParseDateTime(item, "startAt"), ParseDateTime(item, "endAt");
    var venue, capacity := OptStr(item, "venue"), OptInt(item, "maxCapacity", None);
    var owner, id := ReqStr(item, "owner"), ReqStr(item, "id");
    if slug.None? || title.None? || description.None? || startAt.None? || endAt.None?
       || venue.None? || capacity.None? || owner.None? || id.None?
    then None
    else
      var e := EventBase(slug.value, title.value, description.value, startAt.value, endAt.value,
                         venue.value, capacity.value, owner.value);
      if ValidEventBase(e) then Some(Event(e, id.value)) else None
  }

  /** A valid event, stored or dumped, reads back as itself. */
  lemma EventRoundTrip(ev: Event)
    requires ValidEventBase(ev.base)
    ensures ParseEvent(EventItem(ev)) == Some(ev)
    ensures ParseEvent(EventDump(ev)) == Some(ev)
  {
    var stored, dumped := EventItem(ev), EventDump(ev);
    assert ReqStr(stored, "title") == Some(ev.base.title);
    assert ReqStr(stored, "owner") == Some(ev.base.owner);
    assert ReqStr(stored, "id") == Some(ev.id);
    assert ParseDateTime(stored, "startAt") == Some(ev.base.startAt);
    assert ParseDateTime(stored, "endAt") == Some(ev.base.endAt);
    assert ReqStr(dumped, "title") == Some(ev.base.title);
    assert ReqStr(dumped, "owner") == Some(ev.base.owner);
    assert ReqStr(dumped, "id") == Some(ev.id);
    assert ParseDateTime(dumped, "startAt") == Some(ev.base.startAt);
    assert ParseDateTime(dumped, "endAt") == Some(ev.base.endAt);
  }

  /** `EventUpdate`: every field optional. */
  datatype EventUpdate = EventUpdate(
    slug: Patch<Option<string>>,
    title: Patch<Option<string>>,
    description: Patch<Option<string>>,
    startAt: Patch<Option<DateTime>>,
    endAt: Patch<Option<DateTime>>,
    venue: Patch<Option<string>>,
    maxCapacity: Patch<Option<int>>,
    owner: Patch<Option<string>>)

  predicate ValidEventUpdate(u: EventUpdate)
  {
    && PatchLenBetween(u.slug, 1, 100)
    && PatchLenBetween(u.title, 1, 200)
    && (u.maxCapacity.SetTo? && u.maxCapacity.value.Some? ==> u.maxCapacity.value.value >= 1)
    && (u.owner.SetTo? && u.owner.value.Some? ==> |u.owner.value.value| >= 1)
    && (u.startAt.SetTo? && u.startAt.value.Some? ==> u.startAt.value.value.iso != "")
    && (u.endAt.SetTo? && u.endAt.value.Some? ==> u.endAt.value.value.iso != "")
  }

  function TimeSlot(k: string, p: Patch<Option<DateTime>>): Slot
  {
    Slot(k, p.SetTo?, if p.SetTo? && p.value.Some? then Time(p.value.value.iso) else Null)
  }

  const EventUpdateKeys: seq<string> :=
    ["slug", "title", "description", "startAt", "endAt", "venue", "maxCapacity", "owner"]

  function EventUpdateSlots(u: EventUpdate): (slots: seq<Slot>)
    ensures SlotKeys(slots) == EventUpdateKeys
  {
    [StrSlot("slug", u.slug), StrSlot("title", u.title), StrSlot("description", u.description),
     TimeSlot("startAt", u.startAt), TimeSlot("endAt", u.endAt), StrSlot("venue", u.venue),
     Slot("maxCapacity", u.maxCapacity.SetTo?, if u.maxCapacity.SetTo? then NumOrNull(u.maxCapacity.value) else Null),
     StrSlot("owner", u.owner)]
  }

  lemma EventUpdateKeysDistinct()
    ensures forall i, j :: 0 <= i < j < |EventUpdateKeys| ==> EventUpdateKeys[i] != EventUpdateKeys[j]
  {
  }

  /** Whether the request left every field out. */
  predicate NothingSet(u: EventUpdate)
  {
    && u.slug.Unset? && u.title.Unset? && u.description.Unset? && u.startAt.Unset?
    && u.endAt.Unset? && u.venue.Unset? && u.maxCapacity.Unset? && u.owner.Unset?
  }

  /** `event.dict(exclude_unset=True)`, datetimes still objects. It is empty
      exactly when the request set nothing. */
  function EventUpdateData(u: EventUpdate): (d: seq<Entry>)
    ensures DistinctKeys(d)
    ensures d == [] <==> NothingSet(u)
    ensures forall k :: k in KeysOf(d) ==> k in EventUpdateKeys
  {
    var slots := EventUpdateSlots(u);
    EventUpdateKeysDistinct();
    KeepDistinct(slots);
    KeepEmptyIff(slots);
    EventSlotsUnset(u);
    Keep(slots)
  }

  lemma EventSlotsUnset(u: EventUpdate)
    ensures (forall i :: 0 <= i < |EventUpdateSlots(u)| ==> !EventUpdateSlots(u)[i].present) <==> NothingSet(u)
  {
    var slots := EventUpdateSlots(u);
    assert slots[0].present == u.slug.SetTo? && slots[1].present == u.title.SetTo?;
    assert slots[2].present == u.description.SetTo? && slots[3].present == u.startAt.SetTo?;
    assert slots[4].present == u.endAt.SetTo? && slots[5].present == u.venue.SetTo?;
    assert slots[6].present == u.maxCapacity.SetTo? && slots[7].present == u.owner.SetTo?;
  }

  // ----- relationships -----

  datatype Role = Host | Attendee

  function RoleName(r: Role): string
  {
    match r
    case Host => "host"
    case Attendee => "attendee"
  }

  /** The `Literal["host", "attendee"]` check. */
  function ParseRole(s: string): (r: Option<Role>)
    ensures r.Some? <==> s == "host" || s == "attendee"
    ensures r.Some? ==> RoleName(r.value) == s
  {
    if s == "host" then Some(Host) else if s == "attendee" then Some(Attendee) else None
  }

  /** `UserEventRelationship`; `createdAt` is the creation time's ISO text. */
  datatype Relationship = Relationship(userId: string, eventId: string, role: Role, createdAt: string)

  /** Its `dict()`: the four declared fields, which is also what the
      response model serializes. */
  function RelationshipDict(r: Relationship): (item: Item)
    ensures item.Keys == {"userId", "eventId", "relationshipType", "createdAt"}
  {
    map["userId" := Str(r.userId), "eventId" := Str(r.eventId),
        "relationshipType" := Str(RoleName(r.role)), "createdAt" := Str(r.createdAt)]
  }

  /** The stored record: its `dict()` with the record id added. */
  function RelationshipItem(r: Relationship, id: string): (item: Item)
    ensures item.Keys == RelationshipDict(r).Keys + {"id"}
    ensures item["id"] == Str(id)
    ensures item - {"id"} == RelationshipDict(r)
  {
    RelationshipDict(r)["id" := Str(id)]
  }

  function ParseRelationship(item: Item): (r: Option<Relationship>)
    ensures r.Some? ==> "relationshipType" in item && item["relationshipType"] == Str(RoleName(r.value.role))
  {
    var user, event, tag := ReqStr(item, "userId"), ReqStr(item, "eventId"), ReqStr(item, "relationshipType");
    var created := ReqStr(item, "createdAt");
    if user.None? || event.None? || tag.None? || created.None? || ParseRole(tag.value).None? then None
    else Some(Relationship(user.value, event.value, ParseRole(tag.value).value, created.value))
  }

  lemma RelationshipRoundTrip(r: Relationship, id: string)
    ensures ParseRelationship(RelationshipItem(r, id)) == Some(r)
  {
    var item := RelationshipItem(r, id);
    assert ReqStr(item, "relationshipType") == Some(RoleName(r.role));
    assert ParseRole(RoleName(r.role)) == Some(r.role);
  }

  // ----- e-mail -----

  /** `EmailRequest`. */
  datatype EmailRequest = EmailRequest(subject: string, body: string)

  /** A subject of 1 to 200 characters and a non-empty body. */
  predicate ValidEmailRequest(e: EmailRequest)
  {
    LenBetween(e.subject, 1, 200) && |e.body| >= 1
  }

  datatype DeliveryStatus = Sent | Failed

  function StatusName(s: DeliveryStatus): string
  {
    match s
    case Sent => "sent"
    case Failed => "failed"
  }

  /** `EmailStatusBase`: one delivery attempt. */
  datatype EmailStatus = EmailStatus(email: string, userId: string, status: DeliveryStatus, createdAt: string)

  function EmailStatusItem(e: EmailStatus): (item: Item)
    ensures item.Keys == {"email", "userId", "status", "createdAt"}
  {
    map["email" := Str(e.email), "userId" := Str(e.userId),
        "status" := Str(StatusName(e.status)), "createdAt" := Str(e.createdAt)]
  }

  /** Validation as an `EmailStatusResponse`: the status is exactly `sent`
      or `failed`. */
  function ParseEmailStatus(item: Item): (r: Option<EmailStatus>)
    ensures r.Some? ==> IsEmail(r.value.email)
    ensures r.Some? <==>
              && ReqStr(item, "email").Some? && IsEmail(ReqStr(item, "email").value)
              && ReqStr(item, "userId").Some? && ReqStr(item, "createdAt").Some?
              && (ReqStr(item, "status") == Some("sent") || ReqStr(item, "status") == Some("failed"))
  {
    var email, user := ReqStr(item, "email"), ReqStr(item, "userId");
    var status, created := ReqStr(item, "status"), ReqStr(item, "createdAt");
    if email.None? || user.None? || status.None? || created.None? || !IsEmail(email.value) then None
    else if status.value == "sent" then Some(EmailStatus(email.value, user.value, Sent, created.value))
    else if status.value == "failed" then Some(EmailStatus(email.value, user.value, Failed, created.value))
    else None
  }

  lemma EmailStatusRoundTrip(e: EmailStatus)
    requires IsEmail(e.email)
    ensures ParseEmailStatus(EmailStatusItem(e)) == Some(e)
  {
    var item := EmailStatusItem(e);
    assert ReqStr(item, "email") == Some(e.email);
    assert ReqStr(item, "status") == Some(StatusName(e.status));
  }
}
