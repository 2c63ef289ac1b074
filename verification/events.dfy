/** The event routes (routes/events.py): creating an event under a fresh id,
    reading one together with its hosts and attendees, looking events up by
    slug, and updating one. Datetimes are written as their ISO text, since
    the store's serializer does not accept datetime objects. */
module Events {
  import opened Values
  import opened Conditions
  import opened Models
  import opened Store

  /** The response and the event table after the request. */
  datatype EventOutcome = EventOutcome(after: Table, result: Result<Event, Failure>)

  /** `if data.get(k): data[k] = data[k].isoformat()` on one datetime field.
      The field holds a datetime, which is always truthy, or null, which is
      left alone. */
  function IsoFormat(v: Value): Value
  {
    if v.Time? then Str(v.iso) else v
  }

  predicate IsDateKey(k: string)
  {
    k == "startAt" || k == "endAt"
  }

  /** Validation of the record a handler returns as an `EventResponse`:
      500 when it does not validate. */
  function Validated(after: Table, item: Item): (o: EventOutcome)
    ensures o.after == after
    ensures o.result.Ok? <==> ParseEvent(item).Some?
    ensures o.result.Ok? ==> o.result.value == ParseEvent(item).value
    ensures o.result.Err? ==> o.result.error == ServerError
  {
    var ev := ParseEvent(item);
    if ev.None? then EventOutcome(after, Err(ServerError)) else EventOutcome(after, Ok(ev.value))
  }

  // ----- create_event -----

  /** The two conversions of `create_event` on the event's dict. */
  function TextDatesItem(item: Item): Item
  {
    var a := if "startAt" in item then item["startAt" := IsoFormat(item["startAt"])] else item;
    if "endAt" in a then a["endAt" := IsoFormat(a["endAt"])] else a
  }

  /** Converting the datetimes of an event's dict gives the record as it is
      stored. */
  lemma TextDatesOfDump(ev: Event)
    ensures TextDatesItem(EventDump(ev)) == EventItem(ev)
  {
    var d, s := EventDump(ev), EventItem(ev);
    var c := TextDatesItem(d);
    assert c.Keys == s.Keys;
    forall k | k in s ensures c[k] == s[k] {
      if !IsDateKey(k) {
        assert c[k] == d[k];
      }
    }
  }

  /** A stored event holds only strings, numbers and nulls. */
  lemma EventItemStorable(ev: Event)
    ensures StorableItem(EventItem(ev))
  {
  }

  /** `create_event`: the body is validated (422), its dict gets the new id
      and ISO-text datetimes, and is put under the condition that no record
      with that id exists (400). The response is the written dict validated
      as an `EventResponse`. The id is a parameter: the source draws a
      random UUID. */
  function CreateEvent(t: Table, e: EventBase, id: string): (o: EventOutcome)
    ensures !ValidEventBase(e) ==> o == EventOutcome(t, Err(Unprocessable))
    ensures o.result.Err? ==> o.after == t
    ensures o.result.Ok? ==> o.result.value == Event(e, id)
    ensures o.result.Ok? && t.keyName == "id" ==>
              o.after.rows == t.rows[id := EventItem(Event(e, id))]
  {
    if !ValidEventBase(e) then EventOutcome(t, Err(Unprocessable))
    else
      var data := TextDatesItem(EventDump(Event(e, id)));
      var created := CreateObject(t, data);
      if created.Err? then EventOutcome(t, Err(BadRequest))
      else
        TextDatesOfDump(Event(e, id));
        EventRoundTrip(Event(e, id));
        Validated(created.value, data)
  }

  /** On a table keyed by `id`, a valid event is created exactly when its id
      is new (the conditional put refuses a taken one). */
  lemma CreateEventFreshId(t: Table, e: EventBase, id: string)
    requires WellFormed(t) && t.keyName == "id" && ValidEventBase(e)
    ensures CreateEvent(t, e, id).result.Ok? <==> id != "" && id !in t.rows
    ensures CreateEvent(t, e, id).result.Err? ==> CreateEvent(t, e, id).result.error == BadRequest
  {
    var ev := Event(e, id);
    TextDatesOfDump(ev);
    EventRoundTrip(ev);
    EventItemStorable(ev);
    assert KeyOf(t, EventItem(ev)) == (if id != "" then Some(id) else None);
  }

  // ----- get_event -----

  /** `get_object_by_index('EventIdIndex', 'eventId', event_id)`. */
  function RosterRequest(eventId: string): Request
  {
    Query("EventIdIndex", Atom(Pred("eventId", Eq, Str(eventId))), None)
  }

  /** A relationship record the loop cannot process: it has no
      `relationshipType`, or it is tagged host or attendee and has no
      `userId` (both raise KeyError). */
  predicate Unreadable(x: Item)
  {
    || "relationshipType" !in x
    || ((x["relationshipType"] == Str("host") || x["relationshipType"] == Str("attendee")) && "userId" !in x)
  }

  /** A record tagged `tag` that names its user. */
  predicate Tagged(x: Item, tag: string)
  {
    "relationshipType" in x && x["relationshipType"] == Str(tag) && "userId" in x
  }

  /** The `userId`s of the records tagged `tag`, in order. */
  function Members(records: seq<Item>, tag: string): (ids: seq<Value>)
    ensures |ids| <= |records|
  {
    if records == [] then []
    else
      var last := records[|records| - 1];
      Members(records[..|records| - 1], tag) + (if Tagged(last, tag) then [last["userId"]] else [])
  }

  /** What the loop over the relationship records ends with: the first
      record it cannot process raises (500); otherwise the hosts and the
      attendees. Records with any other tag are skipped. */
  function Roster(records: seq<Item>): Result<(seq<Value>, seq<Value>), Failure>
  {
    if exists i :: 0 <= i < |records| && Unreadable(records[i]) then Err(ServerError)
    else Ok((Members(records, "host"), Members(records, "attendee")))
  }

  /** The `for user in users` loop of `get_event`. */
  method Partition(records: seq<Item>) returns (r: Result<(seq<Value>, seq<Value>), Failure>)
    ensures r == Roster(records)
  {
    var hosts: seq<Value> := [];
    var attendees: seq<Value> := [];
    var i := 0;
    while i < |records|
      invariant 0 <= i <= |records|
      invariant forall j :: 0 <= j < i ==> !Unreadable(records[j])
      invariant hosts == Members(records[..i], "host")
      invariant attendees == Members(records[..i], "attendee")
    {
      var x := records[i];
      assert records[..i + 1][..i] == records[..i];
      if "relationshipType" !in x {
        return Err(ServerError);
      }
      if x["relationshipType"] == Str("host") {
        if "userId" !in x {
          return Err(ServerError);
        }
        hosts := hosts + [x["userId"]];
      } else if x["relationshipType"] == Str("attendee") {
        if "userId" !in x {
          return Err(ServerError);
        }
        attendees := attendees + [x["userId"]];
      }
      i := i + 1;
    }
    assert records[..i] == records;
    r := Ok((hosts, attendees));
  }

  /** Each record contributes at most one name, to one of the two lists;
      exactly one when it is tagged host or attendee. */
  lemma {:induction false} MembersCount(records: seq<Item>)
    ensures |Members(records, "host")| + |Members(records, "attendee")| <= |records|
    ensures (forall i :: 0 <= i < |records| ==> Tagged(records[i], "host") || Tagged(records[i], "attendee")) ==>
              |Members(records, "host")| + |Members(records, "attendee")| == |records|
  {
    if records != [] {
      var init := records[..|records| - 1];
      MembersCount(init);
      assert forall i :: 0 <= i < |init| ==> init[i] == records[i];
    }
  }

  /** A record tagged `tag` has its user listed under `tag`. */
  lemma {:induction false} TaggedIsListed(records: seq<Item>, i: nat, tag: string)
    requires i < |records| && Tagged(records[i], tag)
    ensures records[i]["userId"] in Members(records, tag)
  {
    var n := |records| - 1;
    if i < n {
      var init := records[..n];
      assert init[i] == records[i];
      TaggedIsListed(init, i, tag);
    }
  }

  /** Every listed user comes from a record tagged `tag`. */
  lemma {:induction false} ListedIsTagged(records: seq<Item>, tag: string, v: Value)
    requires v in Members(records, tag)
    ensures exists i :: 0 <= i < |records| && Tagged(records[i], tag) && records[i]["userId"] == v
  {
    var n := |records| - 1;
    var init := records[..n];
    if v in Members(init, tag) {
      ListedIsTagged(init, tag, v);
      var i :| 0 <= i < |init| && Tagged(init[i], tag) && init[i]["userId"] == v;
      assert init[i] == records[i];
    } else {
      assert Tagged(records[n], tag) && records[n]["userId"] == v;
    }
  }

  /** `get_event`: the record (404 when there is none), validated as an
      `EventResponse` and dumped, then the relationship records of the event
      split into hosts and attendees. A failing read, a record that does not
      validate and a relationship record the loop cannot process are all
      500. */
  function GetEvent(t: Table, id: string, answer: Answers): (r: Result<Item, Failure>)
    ensures r == Err(NotFound) <==> t.keyName == "id" && id != "" && (id !in t.rows || t.rows[id] == map[])
    ensures r.Ok? ==> id in t.rows && ParseEvent(t.rows[id]).Some?
    ensures r.Ok? ==> answer(RosterRequest(id)).Ok? && Roster(answer(RosterRequest(id)).value).Ok?
    ensures r.Ok? <==>
              && t.keyName == "id" && id != "" && id in t.rows && t.rows[id] != map[]
              && ParseEvent(t.rows[id]).Some?
              && answer(RosterRequest(id)).Ok? && Roster(answer(RosterRequest(id)).value).Ok?
    ensures r.Ok? ==> "hosts" in r.value && r.value["hosts"] == List(Members(answer(RosterRequest(id)).value, "host"))
    ensures r.Ok? ==> "attendees" in r.value && r.value["attendees"] == List(Members(answer(RosterRequest(id)).value, "attendee"))
  {
    var got := GetObject(t, "id", id);
    if got.Err? then Err(ServerError)
    else if got.value.None? || got.value.value == map[] then Err(NotFound)
    else
      var ev := ParseEvent(got.value.value);
      if ev.None? then Err(ServerError)
      else
        var rels := answer(RosterRequest(id));
        if rels.Err? then Err(ServerError)
        else
          var roster := Roster(rels.value);
          if roster.Err? then Err(ServerError)
          else Ok(EventDump(ev.value)["hosts" := List(roster.value.0)]["attendees" := List(roster.value.1)])
  }

  /** Attributes other than the nine an event declares do not change how a
      record validates. */
  lemma ParseEventIgnores(item: Item, k: string, v: Value)
    requires k !in {"slug", "title", "description", "startAt", "endAt", "venue", "maxCapacity", "owner", "id"}
    ensures ParseEvent(item[k := v]) == ParseEvent(item)
  {
    var a := item[k := v];
    assert OptStr(a, "slug") == OptStr(item, "slug");
    assert ReqStr(a, "title") == ReqStr(item, "title");
    assert OptStr(a, "description") == OptStr(item, "description");
    assert ParseDateTime(a, "startAt") == ParseDateTime(item, "startAt");
    assert ParseDateTime(a, "endAt") == ParseDateTime(item, "endAt");
    assert OptStr(a, "venue") == OptStr(item, "venue");
    assert OptInt(a, "maxCapacity", None) == OptInt(item, "maxCapacity", None);
    assert ReqStr(a, "owner") == ReqStr(item, "owner");
    assert ReqStr(a, "id") == ReqStr(item, "id");
  }

  /** The event in the response is the stored event. */
  lemma GetEventReadsStored(t: Table, id: string, answer: Answers)
    requires GetEvent(t, id, answer).Ok?
    ensures ParseEvent(GetEvent(t, id, answer).value) == ParseEvent(t.rows[id])
  {
    var ev := ParseEvent(t.rows[id]).value;
    var rels := answer(RosterRequest(id)).value;
    var dump := EventDump(ev);
    var withHosts := dump["hosts" := List(Members(rels, "host"))];
    EventRoundTrip(ev);
    ParseEventIgnores(dump, "hosts", List(Members(rels, "host")));
    ParseEventIgnores(withHosts, "attendees", List(Members(rels, "attendee")));
  }

  /** The list a role is reported under. */
  function RosterKey(role: Role): string
  {
    match role
    case Host => "hosts"
    case Attendee => "attendees"
  }

  /** A user who joined the event is listed under the role they joined
      with, whenever the store returns their relationship record. */
  lemma JoinedUserListed(t: Table, id: string, answer: Answers, rel: Relationship, relId: string, j: nat)
    requires GetEvent(t, id, answer).Ok?
    requires j < |answer(RosterRequest(id)).value|
    requires answer(RosterRequest(id)).value[j] == RelationshipItem(rel, relId)
    ensures RosterKey(rel.role) in GetEvent(t, id, answer).value
    ensures GetEvent(t, id, answer).value[RosterKey(rel.role)].List?
    ensures Str(rel.userId) in GetEvent(t, id, answer).value[RosterKey(rel.role)].elems
  {
    var records := answer(RosterRequest(id)).value;
    var x := RelationshipItem(rel, relId);
    assert x["relationshipType"] == Str(RoleName(rel.role)) && x["userId"] == Str(rel.userId);
    TaggedIsListed(records, j, RoleName(rel.role));
  }

  /** A freshly created event reads back, with empty rosters when the store
      holds no relationship for it. */
  lemma CreateThenGetEvent(t: Table, e: EventBase, id: string, answer: Answers)
    requires t.keyName == "id" && CreateEvent(t, e, id).result.Ok?
    requires answer(RosterRequest(id)) == Ok([])
    ensures GetEvent(CreateEvent(t, e, id).after, id, answer).Ok?
    ensures ParseEvent(GetEvent(CreateEvent(t, e, id).after, id, answer).value) == Some(Event(e, id))
    ensures GetEvent(CreateEvent(t, e, id).after, id, answer).value["hosts"] == List([])
  {
    var after := CreateEvent(t, e, id).after;
    var ev := Event(e, id);
    EventRoundTrip(ev);
    assert after.rows[id] == EventItem(ev);
    assert "title" in EventItem(ev);
    assert Members([], "host") == [] && Members([], "attendee") == [];
    var none: seq<Item> := [];
    assert Roster(none) == Ok(([], []));
    GetEventReadsStored(after, id, answer);
  }

  // ----- get_event_by_slug -----

  /** `get_object_by_slug`: a query on `SlugIndex` for the slug. */
  function SlugRequest(slug: string): Request
  {
    Query("SlugIndex", Atom(Pred("slug", Eq, Str(slug))), None)
  }

  /** `get_event_by_slug`: the records the query returns, 404 when there are
      none; a failing query is 500. */
  function GetEventBySlug(slug: string, answer: Answers): (r: Result<seq<Item>, Failure>)
    ensures r == Err(NotFound) <==> answer(SlugRequest(slug)) == Ok([])
    ensures r.Err? ==> r.error == NotFound || r.error == ServerError
    ensures r.Ok? ==> r.value != [] && answer(SlugRequest(slug)) == Ok(r.value)
  {
    var found := answer(SlugRequest(slug));
    if found.Err? then Err(ServerError)
    else if found.value == [] then Err(NotFound)
    else Ok(found.value)
  }

  /** When the store answers the query it was sent, every event returned
      carries the slug asked for. */
  lemma SlugResultsCarrySlug(slug: string, answer: Answers, i: nat)
    requires GetEventBySlug(slug, answer).Ok?
    requires forall x :: x in answer(SlugRequest(slug)).value ==> Selects(SlugRequest(slug), x)
    requires i < |GetEventBySlug(slug, answer).value|
    ensures "slug" in GetEventBySlug(slug, answer).value[i]
    ensures GetEventBySlug(slug, answer).value[i]["slug"] == Str(slug)
  {
    var x := GetEventBySlug(slug, answer).value[i];
    assert x in answer(SlugRequest(slug)).value;
    assert Eval(Atom(Pred("slug", Eq, Str(slug))), x);
  }

  // ----- update_event -----

  /** The conversions of `update_event` on one entry of the dict. */
  function IsoEntry(e: Entry): Entry
  {
    if IsDateKey(e.key) then Entry(e.key, IsoFormat(e.value)) else e
  }

  /** The dict with its datetimes as ISO text: same keys in the same
      order. */
  function TextDates(data: seq<Entry>): (r: seq<Entry>)
    ensures |r| == |data|
    ensures KeysOf(r) == KeysOf(data)
    ensures DistinctKeys(data) ==> DistinctKeys(r)
    ensures forall i :: 0 <= i < |r| ==> IsDateKey(r[i].key) ==> !r[i].value.Time?
    ensures forall i :: 0 <= i < |r| ==> !IsDateKey(r[i].key) ==> r[i] == data[i]
  {
    var r := seq(|data|, i requires 0 <= i < |data| => IsoEntry(data[i]));
    assert KeysOf(r) == KeysOf(data);
    r
  }

  /** The handler's answer to the store's reply: a rejection is 400, an
      empty record 404, a record that does not validate as an
      `EventResponse` 500. */
  function EventUpdateResponse(t: Table, updated: Result<(Table, Item), Failure>): (o: EventOutcome)
    ensures o.result == Err(BadRequest) <==> updated.Err?
    ensures o.result == Err(NotFound) <==> updated.Ok? && updated.value.1 == map[]
    ensures o.result != Err(Unprocessable)
    ensures updated.Err? ==> o.after == t
    ensures updated.Ok? && updated.value.1 != map[] ==> o.after == updated.value.0
    ensures o.result.Ok? ==> updated.Ok? && ParseEvent(updated.value.1) == Some(o.result.value)
    ensures updated.Ok? && updated.value.1 != map[] && ParseEvent(updated.value.1).None? ==>
              o.result == Err(ServerError)
  {
    if updated.Err? then EventOutcome(t, Err(BadRequest))
    // unreachable: the new record holds at least the written attributes
    else if updated.value.1 == map[] then EventOutcome(t, Err(NotFound))
    else Validated(updated.value.0, updated.value.1)
  }

  /** `update_event` as written: 422 for an invalid body, 400 when it sets
      nothing, then the datetimes become ISO text and the update goes
      straight to the store, which creates the record when the id is
      unknown. */
  function UpdateEvent(t: Table, id: string, upd: EventUpdate): (o: EventOutcome)
    ensures !ValidEventUpdate(upd) <==> o == EventOutcome(t, Err(Unprocessable))
    ensures ValidEventUpdate(upd) && NothingSet(upd) ==> o == EventOutcome(t, Err(BadRequest))
    ensures o.result.Ok? ==> ValidEventBase(o.result.value.base)
  {
    if !ValidEventUpdate(upd) then EventOutcome(t, Err(Unprocessable))
    else
      var data := EventUpdateData(upd);
      if data == [] then EventOutcome(t, Err(BadRequest))
      else EventUpdateResponse(t, UpdateObject(t, id, TextDates(data)))
  }

  /** Every attribute name of an event update fits a placeholder. */
  lemma EventUpdateKeysSafe()
    ensures forall k :: k in EventUpdateKeys ==> PlaceholderSafe(k) && k != "id"
  {
    assert PlaceholderSafe("slug") && PlaceholderSafe("title");
    assert PlaceholderSafe("description") && PlaceholderSafe("startAt");
    assert PlaceholderSafe("endAt") && PlaceholderSafe("venue");
    assert PlaceholderSafe("maxCapacity") && PlaceholderSafe("owner");
  }

  /** The values an event update writes are strings, numbers, nulls or,
      under the two datetime fields, datetimes. */
  predicate UpdateValue(e: Entry)
  {
    !e.value.List? && (e.value.Time? ==> IsDateKey(e.key))
  }

  lemma EventSlotValues(upd: EventUpdate)
    ensures forall i :: 0 <= i < |EventUpdateSlots(upd)| ==>
              UpdateValue(Entry(EventUpdateSlots(upd)[i].key, EventUpdateSlots(upd)[i].value))
  {
  }

  lemma EventDataValues(upd: EventUpdate)
    ensures forall i :: 0 <= i < |EventUpdateData(upd)| ==> UpdateValue(EventUpdateData(upd)[i])
  {
    var slots := EventUpdateSlots(upd);
    var data := EventUpdateData(upd);
    EventSlotValues(upd);
    forall i | 0 <= i < |data| ensures UpdateValue(data[i]) {
      KeepFrom(slots, data[i]);
      var j :| 0 <= j < |slots| && slots[j].present && slots[j].value == data[i].value && slots[j].key == data[i].key;
      assert Entry(slots[j].key, slots[j].value) == data[i];
    }
  }

  /** The store accepts every valid event update that sets something, on a
      table keyed by `id`. */
  lemma EventUpdateAccepted(t: Table, id: string, upd: EventUpdate)
    requires t.keyName == "id" && id != "" && !NothingSet(upd)
    ensures UpdateAccepted(t, id, TextDates(EventUpdateData(upd)))
  {
    var data := EventUpdateData(upd);
    var text := TextDates(data);
    EventUpdateKeysSafe();
    EventDataValues(upd);
    forall i | 0 <= i < |text| ensures PlaceholderSafe(text[i].key) && Storable(text[i].value) {
      assert text[i].key == KeysOf(data)[i];
      assert text[i].key in KeysOf(data);
      assert UpdateValue(data[i]);
      if !IsDateKey(text[i].key) {
        assert text[i] == data[i];
      }
    }
  }

  /** The handler's 404 is unreachable. */
  lemma UpdateEventNever404(t: Table, id: string, upd: EventUpdate)
    ensures UpdateEvent(t, id, upd).result != Err(NotFound)
  {
    if ValidEventUpdate(upd) && !NothingSet(upd) {
      var text := TextDates(EventUpdateData(upd));
      if UpdateObject(t, id, text).Ok? {
        UpdateResultNonEmpty(t, id, text);
      }
    }
  }

  /** The entry a set field contributes, found at its position in the
      converted dict. */
  lemma WrittenEntry(upd: EventUpdate, slot: nat)
    requires slot < 8 && EventUpdateSlots(upd)[slot].present
    ensures exists i :: 0 <= i < |TextDates(EventUpdateData(upd))|
                        && TextDates(EventUpdateData(upd))[i]
                           == IsoEntry(Entry(EventUpdateSlots(upd)[slot].key, EventUpdateSlots(upd)[slot].value))
  {
    var slots := EventUpdateSlots(upd);
    var data := EventUpdateData(upd);
    KeepFinds(slots, slot);
    var i :| 0 <= i < |data| && data[i] == Entry(slots[slot].key, slots[slot].value);
    assert TextDates(data)[i] == IsoEntry(data[i]);
  }

  /** The record the store returns after an update holds each set field
      as it was written, datetimes as ISO text. */
  lemma UpdateWritesSlot(t: Table, id: string, upd: EventUpdate, slot: nat)
    requires UpdateObject(t, id, TextDates(EventUpdateData(upd))).Ok?
    requires slot < 8 && EventUpdateSlots(upd)[slot].present
    ensures var e := IsoEntry(Entry(EventUpdateSlots(upd)[slot].key, EventUpdateSlots(upd)[slot].value));
            var item := UpdateObject(t, id, TextDates(EventUpdateData(upd))).value.1;
            e.key in item && item[e.key] == e.value
  {
    WrittenEntry(upd, slot);
  }

  /** The updated event is the record the store returned, validated. */
  lemma UpdatedEventIsReturned(t: Table, id: string, upd: EventUpdate)
    requires UpdateEvent(t, id, upd).result.Ok?
    ensures UpdateObject(t, id, TextDates(EventUpdateData(upd))).Ok?
    ensures ParseEvent(UpdateObject(t, id, TextDates(EventUpdateData(upd))).value.1)
            == Some(UpdateEvent(t, id, upd).result.value)
  {
  }

  /** The response shows a title the request set. */
  lemma UpdatedEventShowsTitle(t: Table, id: string, upd: EventUpdate)
    requires UpdateEvent(t, id, upd).result.Ok?
    requires upd.title.SetTo? && upd.title.value.Some?
    ensures UpdateEvent(t, id, upd).result.value.base.title == upd.title.value.value
  {
    UpdatedEventIsReturned(t, id, upd);
    TitleWritten(t, id, upd);
    var item := UpdateObject(t, id, TextDates(EventUpdateData(upd))).value.1;
    assert ReqStr(item, "title") == Some(upd.title.value.value);
  }

  lemma TitleWritten(t: Table, id: string, upd: EventUpdate)
    requires UpdateObject(t, id, TextDates(EventUpdateData(upd))).Ok?
    requires upd.title.SetTo? && upd.title.value.Some?
    ensures "title" in UpdateObject(t, id, TextDates(EventUpdateData(upd))).value.1
    ensures UpdateObject(t, id, TextDates(EventUpdateData(upd))).value.1["title"]
            == Str(upd.title.value.value)
  {
    var text := TextDates(EventUpdateData(upd));
    TitleEntry(upd);
    var i :| 0 <= i < |text| && text[i] == Entry("title", Str(upd.title.value.value));
  }

  lemma TitleEntry(upd: EventUpdate)
    requires upd.title.SetTo? && upd.title.value.Some?
    ensures exists i :: 0 <= i < |TextDates(EventUpdateData(upd))|
                        && TextDates(EventUpdateData(upd))[i] == Entry("title", Str(upd.title.value.value))
  {
    assert EventUpdateSlots(upd)[1] == Slot("title", true, Str(upd.title.value.value));
    WrittenEntry(upd, 1);
  }

  /** The response shows a start time the request set, read back from its
      ISO text. */
  lemma UpdatedEventShowsStart(t: Table, id: string, upd: EventUpdate)
    requires UpdateEvent(t, id, upd).result.Ok?
    requires upd.startAt.SetTo? && upd.startAt.value.Some?
    ensures UpdateEvent(t, id, upd).result.value.base.startAt == upd.startAt.value.value
  {
    UpdatedEventIsReturned(t, id, upd);
    StartWritten(t, id, upd);
    var item := UpdateObject(t, id, TextDates(EventUpdateData(upd))).value.1;
    var ev := UpdateEvent(t, id, upd).result.value;
    assert ParseDateTime(item, "startAt") == Some(ev.base.startAt);
  }

  lemma StartWritten(t: Table, id: string, upd: EventUpdate)
    requires UpdateObject(t, id, TextDates(EventUpdateData(upd))).Ok?
    requires upd.startAt.SetTo? && upd.startAt.value.Some?
    ensures "startAt" in UpdateObject(t, id, TextDates(EventUpdateData(upd))).value.1
    ensures UpdateObject(t, id, TextDates(EventUpdateData(upd))).value.1["startAt"]
            == Str(upd.startAt.value.value.iso)
  {
    var text := TextDates(EventUpdateData(upd));
    StartEntry(upd);
    var i :| 0 <= i < |text| && text[i] == Entry("startAt", Str(upd.startAt.value.value.iso));
  }

  lemma StartEntry(upd: EventUpdate)
    requires upd.startAt.SetTo? && upd.startAt.value.Some?
    ensures exists i :: 0 <= i < |TextDates(EventUpdateData(upd))|
                        && TextDates(EventUpdateData(upd))[i] == Entry("startAt", Str(upd.startAt.value.value.iso))
  {
    var d := upd.startAt.value.value;
    assert EventUpdateSlots(upd)[3] == Slot("startAt", true, Time(d.iso));
    WrittenEntry(upd, 3);
  }

  /** A field the request left out is not among the attributes written. */
  lemma UnsetNotWritten(upd: EventUpdate, slot: nat)
    requires slot < 8 && !EventUpdateSlots(upd)[slot].present
    ensures EventUpdateSlots(upd)[slot].key !in KeysOf(EventUpdateData(upd))
  {
    var slots := EventUpdateSlots(upd);
    var k := slots[slot].key;
    EventUpdateKeysDistinct();
    forall i | 0 <= i < |slots| && slots[i].key == k ensures !slots[i].present {
      assert SlotKeys(slots)[i] == SlotKeys(slots)[slot];
    }
    AbsentNotKept(slots, k);
  }

  /** In particular an update without a title leaves the title alone. */
  lemma TitleNotWritten(upd: EventUpdate)
    requires upd.title.Unset?
    ensures "title" !in KeysOf(EventUpdateData(upd))
  {
    assert EventUpdateSlots(upd)[1] == Slot("title", false, Null);
    UnsetNotWritten(upd, 1);
  }

  /** As written, updating an unknown id without a title writes a partial
      record under that id and answers 500, since the new record lacks the
      required attributes. */
  lemma UpdateUnknownEventAsWritten(t: Table, id: string, upd: EventUpdate)
    requires t.keyName == "id" && id != "" && id !in t.rows
    requires ValidEventUpdate(upd) && !NothingSet(upd) && upd.title.Unset?
    ensures UpdateEvent(t, id, upd).result == Err(ServerError)
    ensures id in UpdateEvent(t, id, upd).after.rows
  {
    var data := EventUpdateData(upd);
    var text := TextDates(data);
    EventUpdateAccepted(t, id, upd);
    UpdateResultNonEmpty(t, id, text);
    TitleNotWritten(upd);
    var updated := UpdateObject(t, id, text);
    var item := updated.value.1;
    assert "title" !in item;
    assert ReqStr(item, "title").None?;
    assert UpdateEvent(t, id, upd) == EventUpdateResponse(t, updated);
  }

  /** `update_event` as its 404 branch means it: an unknown id is "Event not
      found" and nothing is written. */
  function UpdateEventIntended(t: Table, id: string, upd: EventUpdate): (o: EventOutcome)
    ensures t.keyName == "id" && id != "" && id !in t.rows && ValidEventUpdate(upd) && !NothingSet(upd) ==>
              o == EventOutcome(t, Err(NotFound))
    ensures id in t.rows ==> o == UpdateEvent(t, id, upd)
    ensures id !in t.rows ==> o.after == t
  {
    if !ValidEventUpdate(upd) then EventOutcome(t, Err(Unprocessable))
    else if EventUpdateData(upd) == [] then EventOutcome(t, Err(BadRequest))
    else
      var got := GetObject(t, "id", id);
      if got.Ok? && got.value.None? then EventOutcome(t, Err(NotFound))
      else UpdateEvent(t, id, upd)
  }
}
