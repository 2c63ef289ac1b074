/** The user routes: the filtered, sorted and paginated listing; joining an
    event as host or attendee, which records the relationship and bumps a
    counter on the user; updating a user; and starting an e-mail campaign to
    the users a filter selects. Store reads by query or scan come from an
    `Answers` parameter; keyed reads and writes go to `Table`s. */
module Users {
  import opened Values
  import opened Conditions
  import opened Planner
  import opened Ordering
  import opened Pager
  import opened Models
  import opened Store

  // ----- listing -----

  /** The listing's query parameters other than the filters. */
  datatype ListQuery = ListQuery(sortBy: string, sortOrder: string, page: int, pagesize: int)

  /** `sort_order` matches `^(asc|desc)$`; the page constraints hold. */
  predicate ValidListQuery(q: ListQuery)
  {
    (q.sortOrder == "asc" || q.sortOrder == "desc") && ValidPageRequest(q.page, q.pagesize)
  }

  /** Sorting, paginating and validating the fetched records. A TypeError
      from the sort and a validation error both end in 500. */
  function ListUsers(all: seq<Item>, q: ListQuery): (r: Result<Page<User>, Failure>)
    requires ValidListQuery(q)
    ensures r.Err? ==> r.error == ServerError
    ensures !Sortable(all, q.sortBy) ==> r.Err?
    ensures r.Ok? <==> Sortable(all, q.sortBy) && ParseAll(PageRecords(all, q), ParseUser).Some?
    ensures r.Ok? ==>
              var sorted := SortItems(all, q.sortBy, q.sortOrder == "desc");
              var p := Paginate(sorted, q.page, q.pagesize);
              && r.value.totalCount == |all|
              && r.value.totalPages == p.totalPages
              && r.value.hasNext == p.hasNext && r.value.hasPrevious == p.hasPrevious
              && |r.value.items| == |p.items|
              && forall i :: 0 <= i < |p.items| ==> Some(r.value.items[i]) == ParseUser(p.items[i])
  {
    if !Sortable(all, q.sortBy) then Err(ServerError)
    else
      var sorted := SortItems(all, q.sortBy, q.sortOrder == "desc");
      var p := Paginate(sorted, q.page, q.pagesize);
      var users := ParseAll(p.items, ParseUser);
      if users.None? then Err(ServerError)
      else Ok(Page(users.value, p.totalCount, p.page, p.pagesize, p.totalPages, p.hasNext, p.hasPrevious))
  }

  /** `filter_users2`: a full scan when no filter is supplied, the planner's
      request otherwise; then sort, paginate and validate. Any failure after
      the request was accepted is 500. */
  function FilterUsers(filters: UserFilters, q: ListQuery, answer: Answers): (r: Result<Page<User>, Failure>)
    ensures !ValidListQuery(q) <==> r == Err(Unprocessable)
    ensures r.Err? && ValidListQuery(q) ==> r.error == ServerError
    ensures ValidListQuery(q) && answer(UserSource(filters)).Err? ==> r == Err(ServerError)
    ensures r.Ok? ==> answer(UserSource(filters)).Ok?
    ensures ValidListQuery(q) && answer(UserSource(filters)).Ok? ==>
              r == ListUsers(answer(UserSource(filters)).value, q)
  {
    if !ValidListQuery(q) then Err(Unprocessable)
    else
      var fetched := answer(UserSource(filters));
      if fetched.Err? then Err(ServerError)
      else ListUsers(fetched.value, q)
  }

  /** The records behind a listed page: the page of the sorted results. */
  function PageRecords(all: seq<Item>, q: ListQuery): seq<Item>
    requires ValidListQuery(q) && Sortable(all, q.sortBy)
  {
    Paginate(SortItems(all, q.sortBy, q.sortOrder == "desc"), q.page, q.pagesize).items
  }

  /** Every record on a page is one of the fetched records. */
  lemma PageRecordFetched(all: seq<Item>, q: ListQuery, i: nat)
    requires ValidListQuery(q) && Sortable(all, q.sortBy)
    requires i < |PageRecords(all, q)|
    ensures PageRecords(all, q)[i] in all
  {
    var sorted := SortItems(all, q.sortBy, q.sortOrder == "desc");
    var k := Offset(q.page, q.pagesize) + i;
    assert PageRecords(all, q)[i] == sorted[k];
    SortedElementFrom(all, q.sortBy, q.sortOrder == "desc", k);
  }

  /** Each listed user is the validated form of one of the fetched records. */
  lemma ListedRecordFetched(all: seq<Item>, q: ListQuery, i: nat)
    requires ValidListQuery(q) && ListUsers(all, q).Ok?
    requires i < |ListUsers(all, q).value.items|
    ensures i < |PageRecords(all, q)|
    ensures PageRecords(all, q)[i] in all
    ensures ParseUser(PageRecords(all, q)[i]) == Some(ListUsers(all, q).value.items[i])
  {
    PageRecordFetched(all, q, i);
  }

  /** When the store answers the request it was sent, every listed user is
      the validated form of a record that meets every supplied filter. */
  lemma ListedUsersMatchFilters(filters: UserFilters, q: ListQuery, answer: Answers, i: nat)
    requires FilterUsers(filters, q, answer).Ok?
    requires forall x :: x in answer(UserSource(filters)).value ==> Selects(UserSource(filters), x)
    requires i < |FilterUsers(filters, q, answer).value.items|
    ensures exists x :: x in answer(UserSource(filters)).value && Satisfies(filters, x)
                        && ParseUser(x) == Some(FilterUsers(filters, q, answer).value.items[i])
  {
    var all := answer(UserSource(filters)).value;
    ListedRecordFetched(all, q, i);
    var x := PageRecords(all, q)[i];
    DispatchMatchesPlanner(filters);
    PlanSound(filters, x);
  }

  /** Users have no `createdAt` attribute, so the default listing keeps the
      order in which the store returned them. */
  lemma DefaultSortKeepsStoreOrder(all: seq<Item>, q: ListQuery)
    requires ValidListQuery(q) && q.sortBy == "createdAt"
    requires forall i :: 0 <= i < |all| ==> "createdAt" !in all[i]
    ensures Sortable(all, q.sortBy)
    ensures SortItems(all, q.sortBy, q.sortOrder == "desc") == all
  {
    SortByAbsentKeepsOrder(all, q.sortBy, q.sortOrder == "desc");
  }

  // ----- joining an event -----

  /** The user table and the user/event relationship table. */
  datatype Tables = Tables(users: Table, relationships: Table)

  /** The state after a request, and its response. */
  datatype PatchOutcome = PatchOutcome(after: Tables, result: Result<Item, Failure>)

  function CounterAttr(r: Role): string
  {
    if r == Host then HostedAttr else AttendedAttr
  }

  /** `patch_user`: validate the relationship type (422), write the
      relationship record (400 on failure), then read the user and write its
      counter plus one, a missing counter counting as 0. The relationship is
      written first and stays written whatever happens next: a missing user
      (`None.get`) or a counter that is not a number (`+ 1`) ends in 500, a
      failed counter write in 400. The response is the relationship as its
      response model serializes it, which leaves out the record id. */
  function PatchUser(db: Tables, userId: string, eventId: string, relType: string,
                     relId: string, now: string): (o: PatchOutcome)
    ensures ParseRole(relType).None? ==> o == PatchOutcome(db, Err(Unprocessable))
    ensures o.after.users.keyName == db.users.keyName
    ensures o.result.Ok? <==> JoinSucceeds(db, userId, eventId, relType, relId, now)
    ensures o.result.Ok? ==>
              && o.result.value == RelationshipDict(Relationship(userId, eventId, ParseRole(relType).value, now))
              && "id" !in o.result.value
  {
    var role := ParseRole(relType);
    if role.None? then PatchOutcome(db, Err(Unprocessable))
    else
      var data := RelationshipItem(Relationship(userId, eventId, role.value, now), relId);
      var created := CreateObject(db.relationships, data);
      if created.Err? then PatchOutcome(db, Err(BadRequest))
      else
        var db1 := db.(relationships := created.value);
        var user := GetObject(db.users, "id", userId);
        if user.Err? || user.value.None? then PatchOutcome(db1, Err(ServerError))
        else
          var attr := CounterAttr(role.value);
          var count := Get(user.value.value, attr, Num(0));
          if !count.Num? then PatchOutcome(db1, Err(ServerError))
          else
            var entries := [Entry(attr, Num(count.n + 1))];
            CounterUpdateAccepted(db.users, userId, role.value, count.n + 1);
            var updated := UpdateObject(db.users, userId, entries);
            if updated.Err? then PatchOutcome(db1, Err(BadRequest))
            else PatchOutcome(db1.(users := updated.value.0), Ok(data - {"id"}))
  }

  /** A counter write is accepted whenever the table is keyed by `id` and
      the key is non-empty. */
  lemma CounterUpdateAccepted(users: Table, userId: string, role: Role, n: int)
    ensures UpdateAccepted(users, userId, [Entry(CounterAttr(role), Num(n))])
            <==> users.keyName == "id" && userId != ""
  {
    var data := [Entry(CounterAttr(role), Num(n))];
    assert KeysOf(data) == [CounterAttr(role)];
    CounterAttrSafe(role);
  }

  /** Both counter names fit a placeholder and neither is the key. */
  lemma CounterAttrSafe(role: Role)
    ensures PlaceholderSafe(CounterAttr(role)) && CounterAttr(role) != "id"
  {
    var a := CounterAttr(role);
    forall i | 0 <= i < |a| ensures NameChar(a[i]) {
      assert a[i] in "abcdefghijklmnopqrstuvwxyz_";
    }
  }

  /** When a join succeeds: the type names a role, the relationship record
      can be created, the user table is keyed by `id` and holds the user, and
      the user's counter is a number or missing. The counter write is then
      always accepted. */
  predicate JoinSucceeds(db: Tables, userId: string, eventId: string, relType: string,
                         relId: string, now: string)
  {
    && ParseRole(relType).Some?
    && CreateObject(db.relationships,
         RelationshipItem(Relationship(userId, eventId, ParseRole(relType).value, now), relId)).Ok?
    && db.users.keyName == "id" && userId != "" && userId in db.users.rows
    && Get(db.users.rows[userId], CounterAttr(ParseRole(relType).value), Num(0)).Num?
  }

  /** A successful join adds one to the right counter (from 0 when it was
      missing) and changes nothing else about any user. */
  lemma PatchIncrementsCounter(db: Tables, userId: string, eventId: string, relType: string,
                               relId: string, now: string)
    requires PatchUser(db, userId, eventId, relType, relId, now).result.Ok?
    ensures ParseRole(relType).Some? && userId in db.users.rows
    ensures var attr := CounterAttr(ParseRole(relType).value);
            var before := db.users.rows[userId];
            var after := PatchUser(db, userId, eventId, relType, relId, now).after.users.rows;
            && Get(before, attr, Num(0)).Num?
            && userId in after && attr in after[userId]
            && after[userId][attr] == Num(Get(before, attr, Num(0)).n + 1)
            && (forall k :: k in before && k != attr ==> k in after[userId] && after[userId][k] == before[k])
            && (forall k :: k in after[userId] ==> k == attr || k in before)
            && (forall u :: u in db.users.rows && u != userId ==> u in after && after[u] == db.users.rows[u])
  {
    var attr := CounterAttr(ParseRole(relType).value);
    assert KeysOf([Entry(attr, Num(0))]) == [attr];
  }

  /** Once the role is valid and the relationship write succeeds, the
      relationship stays stored, even when the rest of the request fails. */
  lemma RelationshipPersists(db: Tables, userId: string, eventId: string, relType: string,
                             relId: string, now: string)
    requires ParseRole(relType).Some?
    requires CreateObject(db.relationships,
               RelationshipItem(Relationship(userId, eventId, ParseRole(relType).value, now), relId)).Ok?
    ensures PatchUser(db, userId, eventId, relType, relId, now).after.relationships
            == CreateObject(db.relationships,
                 RelationshipItem(Relationship(userId, eventId, ParseRole(relType).value, now), relId)).value
    ensures PatchUser(db, userId, eventId, relType, relId, now).result.Err? ==>
              PatchUser(db, userId, eventId, relType, relId, now).result.error in {ServerError, BadRequest}
  {
  }

  /** Joining as an unknown user records the relationship and answers 500. */
  lemma PatchUnknownUser(db: Tables, userId: string, eventId: string, relType: string,
                         relId: string, now: string)
    requires ParseRole(relType).Some?
    requires CreateObject(db.relationships,
               RelationshipItem(Relationship(userId, eventId, ParseRole(relType).value, now), relId)).Ok?
    requires userId !in db.users.rows
    ensures PatchUser(db, userId, eventId, relType, relId, now).result == Err(ServerError)
    ensures PatchUser(db, userId, eventId, relType, relId, now).after.users == db.users
  {
  }

  // ----- updating a user -----

  /** The response and the user table after the request. */
  datatype UpdateOutcome = UpdateOutcome(after: Table, result: Result<User, Failure>)

  /** `update_user` as written: the update goes straight to the store, which
      creates the record when the id is unknown; the empty-update 400 and the
      404 on an empty result can never fire. A store rejection is 400; a
      result that does not validate as a `UserResponse` is 500. */
  function UpdateUser(users: Table, id: string, upd: UserUpdate): (o: UpdateOutcome)
    ensures !ValidUserUpdate(upd) <==> o == UpdateOutcome(users, Err(Unprocessable))
    ensures o.result.Ok? ==> ValidUserBase(o.result.value.base)
  {
    if !ValidUserUpdate(upd) then UpdateOutcome(users, Err(Unprocessable))
    else
      var data := UserUpdateData(upd);
      if data == [] then UpdateOutcome(users, Err(BadRequest))
      else UserUpdateResponse(users, UpdateObject(users, id, data))
  }

  /** The handler's answer to the store's reply: a rejection is 400, an
      empty record 404, a record that does not validate 500. */
  function UserUpdateResponse(users: Table, updated: Result<(Table, Item), Failure>): (o: UpdateOutcome)
    ensures o.result == Err(BadRequest) <==> updated.Err?
    ensures o.result == Err(NotFound) <==> updated.Ok? && updated.value.1 == map[]
    ensures o.result != Err(Unprocessable)
    ensures updated.Ok? && updated.value.1 != map[] ==> o.after == updated.value.0
    ensures o.result.Ok? ==> ValidUserBase(o.result.value.base)
    ensures o.result.Ok? ==> updated.Ok? && ParseUser(updated.value.1) == Some(o.result.value)
    ensures updated.Ok? && updated.value.1 != map[] && ParseUser(updated.value.1).Some? ==> o.result.Ok?
  {
    if updated.Err? then UpdateOutcome(users, Err(BadRequest))
    // unreachable: the new record holds at least the written attributes
    else if updated.value.1 == map[] then UpdateOutcome(users, Err(NotFound))
    else
      var user := ParseUser(updated.value.1);
      if user.None? then UpdateOutcome(updated.value.0, Err(ServerError))
      else UpdateOutcome(updated.value.0, Ok(user.value))
  }

  /** A successful update answers the validated form of the record the
      store returned. */
  lemma UpdatedUserIsReturned(users: Table, id: string, upd: UserUpdate)
    requires UpdateUser(users, id, upd).result.Ok?
    ensures ValidUserUpdate(upd)
    ensures UpdateObject(users, id, UserUpdateData(upd)).Ok?
    ensures ParseUser(UpdateObject(users, id, UserUpdateData(upd)).value.1)
            == Some(UpdateUser(users, id, upd).result.value)
  {
  }

  /** The response shows the phone number the request carries: the field is
      always written, as null when it is missing. */
  lemma UpdatedUserShowsPhone(users: Table, id: string, upd: UserUpdate)
    requires UpdateUser(users, id, upd).result.Ok?
    ensures UpdateUser(users, id, upd).result.value.base.phoneNumber == upd.phoneNumber
  {
    UpdatedUserIsReturned(users, id, upd);
    PhoneWritten(users, id, upd);
  }

  lemma PhoneWritten(users: Table, id: string, upd: UserUpdate)
    requires UpdateObject(users, id, UserUpdateData(upd)).Ok?
    ensures "phoneNumber" in UpdateObject(users, id, UserUpdateData(upd)).value.1
    ensures OptStr(UpdateObject(users, id, UserUpdateData(upd)).value.1, "phoneNumber") == Some(upd.phoneNumber)
  {
    var data := UserUpdateData(upd);
    var i :| 0 <= i < |data| && data[i] == Entry("phoneNumber", StrOrNull(upd.phoneNumber));
  }

  /** The response shows a first name the request set. */
  lemma UpdatedUserShowsFirstName(users: Table, id: string, upd: UserUpdate)
    requires UpdateUser(users, id, upd).result.Ok?
    requires upd.firstName.SetTo? && upd.firstName.value.Some?
    ensures UpdateUser(users, id, upd).result.value.base.firstName == upd.firstName.value.value
  {
    UpdatedUserIsReturned(users, id, upd);
    var slots := UserUpdateSlots(upd);
    var data := UserUpdateData(upd);
    assert slots[0] == Slot("firstName", true, Str(upd.firstName.value.value));
    KeepFinds(slots, 0);
    var i :| 0 <= i < |data| && data[i] == Entry("firstName", Str(upd.firstName.value.value));
    var item := UpdateObject(users, id, data).value.1;
    assert ReqStr(item, "firstName") == Some(upd.firstName.value.value);
  }

  /** Every attribute name of a user update fits a placeholder. */
  lemma UserUpdateKeysSafe()
    ensures forall k :: k in UserUpdateKeys ==> PlaceholderSafe(k) && k != "id"
  {
    assert PlaceholderSafe("firstName") && PlaceholderSafe("lastName");
    assert PlaceholderSafe("phoneNumber") && PlaceholderSafe("email");
    assert PlaceholderSafe("avatar") && PlaceholderSafe("gender");
    assert PlaceholderSafe("jobTitle") && PlaceholderSafe("company");
    assert PlaceholderSafe("city") && PlaceholderSafe("state");
  }

  /** Every value a user update writes is a string or null. */
  lemma UserSlotValues(upd: UserUpdate)
    ensures forall i :: 0 <= i < |UserUpdateSlots(upd)| ==>
              UserUpdateSlots(upd)[i].value.Str? || UserUpdateSlots(upd)[i].value.Null?
  {
  }

  /** The dict of a user update holds only strings and nulls. */
  lemma UserDataValues(upd: UserUpdate)
    ensures forall i :: 0 <= i < |UserUpdateData(upd)| ==>
              UserUpdateData(upd)[i].value.Str? || UserUpdateData(upd)[i].value.Null?
  {
    var slots := UserUpdateSlots(upd);
    var data := UserUpdateData(upd);
    UserSlotValues(upd);
    forall i | 0 <= i < |data| ensures data[i].value.Str? || data[i].value.Null? {
      KeepFrom(slots, data[i]);
    }
  }

  /** Every name in the dict of a user update fits a placeholder. */
  lemma UserDataNamesSafe(upd: UserUpdate)
    ensures forall i :: 0 <= i < |UserUpdateData(upd)| ==> PlaceholderSafe(UserUpdateData(upd)[i].key)
    ensures "id" !in KeysOf(UserUpdateData(upd))
  {
    var data := UserUpdateData(upd);
    UserUpdateKeysSafe();
    forall i | 0 <= i < |data| ensures PlaceholderSafe(data[i].key) {
      assert data[i].key in KeysOf(data);
    }
  }

  /** The store accepts every valid user update on a table keyed by `id`. */
  lemma UserUpdateAccepted(users: Table, id: string, upd: UserUpdate)
    requires users.keyName == "id" && id != ""
    ensures UpdateAccepted(users, id, UserUpdateData(upd))
  {
    UserDataValues(upd);
    UserDataNamesSafe(upd);
  }

  /** The handler's 404 is unreachable: the store either rejects the update
      or returns a record holding the written attributes. */
  lemma UpdateUserNever404(users: Table, id: string, upd: UserUpdate)
    ensures UpdateUser(users, id, upd).result != Err(NotFound)
  {
    if ValidUserUpdate(upd) {
      var data := UserUpdateData(upd);
      if UpdateObject(users, id, data).Ok? {
        UpdateResultNonEmpty(users, id, data);
      }
    }
  }

  /** A valid update on a table keyed by `id` is always accepted by the
      store, so the handler's 400 is unreachable too. */
  lemma UpdateUserNever400(users: Table, id: string, upd: UserUpdate)
    requires users.keyName == "id" && id != ""
    ensures UpdateUser(users, id, upd).result != Err(BadRequest)
  {
    if ValidUserUpdate(upd) {
      UserUpdateAccepted(users, id, upd);
      UpdateResultNonEmpty(users, id, UserUpdateData(upd));
    }
  }

  /** As written, updating an unknown id creates a record under it. */
  lemma UpdateUnknownUserCreatesRecord(users: Table, id: string, upd: UserUpdate)
    requires users.keyName == "id" && id != "" && ValidUserUpdate(upd)
    requires id !in users.rows
    ensures id in UpdateUser(users, id, upd).after.rows
    ensures UpdateUser(users, id, upd).result != Err(NotFound)
  {
    var data := UserUpdateData(upd);
    UserUpdateAccepted(users, id, upd);
    UpdateResultNonEmpty(users, id, data);
    var updated := UpdateObject(users, id, data);
    assert id in updated.value.0.rows;
    assert UpdateUser(users, id, upd) == UserUpdateResponse(users, updated);
  }

  /** `update_user` as its 404 branch means it: an unknown id is "User not
      found" and nothing is written. */
  function UpdateUserIntended(users: Table, id: string, upd: UserUpdate): (o: UpdateOutcome)
    ensures ValidUserUpdate(upd) && users.keyName == "id" && id != "" && id !in users.rows ==>
              o == UpdateOutcome(users, Err(NotFound))
    ensures id in users.rows ==> o == UpdateUser(users, id, upd)
    ensures o.result.Err? && o.result.error == NotFound ==> o.after == users
  {
    if !ValidUserUpdate(upd) then UpdateOutcome(users, Err(Unprocessable))
    else
      var existing := GetObject(users, "id", id);
      if existing.Ok? && existing.value.None? then UpdateOutcome(users, Err(NotFound))
      else
        UpdateUserNever404(users, id, upd);
        UpdateUser(users, id, upd)
  }

  // ----- e-mail campaign -----

  /** One `{"email": ..., "userId": ...}` recipient. */
  datatype Recipient = Recipient(email: Value, userId: Value)

  /** `user.get("email")` is truthy. */
  predicate HasEmail(user: Item)
  {
    Truthy(Get(user, "email", Null))
  }

  /** The users with a truthy e-mail, in order. */
  function WithEmail(users: seq<Item>): (r: seq<Item>)
    ensures |r| <= |users|
    ensures forall i :: 0 <= i < |r| ==> HasEmail(r[i]) && r[i] in users
    ensures forall x :: x in users && HasEmail(x) ==> x in r
  {
    if users == [] then []
    else if HasEmail(users[0]) then [users[0]] + WithEmail(users[1..])
    else WithEmail(users[1..])
  }

  /** Filtering keeps order: it distributes over concatenation. */
  lemma {:induction false} WithEmailAppend(a: seq<Item>, b: seq<Item>)
    ensures WithEmail(a + b) == WithEmail(a) + WithEmail(b)
  {
    if a == [] {
      assert a + b == b;
    } else {
      assert (a + b)[0] == a[0];
      assert (a + b)[1..] == a[1..] + b;
      WithEmailAppend(a[1..], b);
    }
  }

  /** A single user is kept exactly when it has an e-mail. */
  lemma WithEmailSingle(x: Item)
    ensures WithEmail([x]) == if HasEmail(x) then [x] else []
  {
    assert [x][1..] == [];
  }

  /** The recipient list comprehension; `user["id"]` on a user with an
      e-mail but no id raises KeyError. */
  function ExtractRecipients(users: seq<Item>): (r: Result<seq<Recipient>, Failure>)
    ensures r.Err? ==> r.error == ServerError
    ensures r.Err? <==> exists x :: x in users && HasEmail(x) && "id" !in x
    ensures r.Ok? ==> |r.value| == |WithEmail(users)|
    ensures r.Ok? ==> forall i :: 0 <= i < |r.value| ==>
              var u := WithEmail(users)[i];
              "email" in u && "id" in u && r.value[i] == Recipient(u["email"], u["id"])
  {
    if users == [] then Ok([])
    else
      var u := users[0];
      var rest := ExtractRecipients(users[1..]);
      assert users == [u] + users[1..];
      if HasEmail(u) && "id" !in u then Err(ServerError)
      else if rest.Err? then rest
      else if HasEmail(u) then
        assert WithEmail(users) == [u] + WithEmail(users[1..]);
        Ok([Recipient(u["email"], u["id"])] + rest.value)
      else
        assert WithEmail(users) == WithEmail(users[1..]);
        rest
  }

  /** The recipient list is empty exactly when no user has an e-mail. */
  lemma RecipientsEmptyIffNoEmail(users: seq<Item>)
    requires ExtractRecipients(users).Ok?
    ensures ExtractRecipients(users).value == [] <==> forall i :: 0 <= i < |users| ==> !HasEmail(users[i])
  {
    if exists i :: 0 <= i < |users| && HasEmail(users[i]) {
      var i :| 0 <= i < |users| && HasEmail(users[i]);
      assert users[i] in WithEmail(users);
    }
  }

  /** `EmailResponse`. */
  datatype EmailResponse = EmailResponse(message: string, recipients: seq<Recipient>)

  /** The background task queued, if any (its recipients), and the response. */
  datatype SendOutcome = SendOutcome(queued: Option<seq<Recipient>>, result: Result<EmailResponse, Failure>)

  function DigitChar(d: nat): char
    requires d < 10
  {
    "0123456789"[d]
  }

  /** `str(n)`. */
  function Decimal(n: nat): string
  {
    if n < 10 then [DigitChar(n)] else Decimal(n / 10) + [DigitChar(n % 10)]
  }

  function CampaignMessage(n: nat): string
  {
    "Email campaign started in background. " + Decimal(n) + " recipients will be notified."
  }

  /** `send_email_to_users` as written. The two early returns build an
      `EmailResponse` without its required `recipients`, which raises a
      validation error that the handler turns into 500. */
  function SendEmailToUsers(filters: UserFilters, req: EmailRequest, answer: Answers): (o: SendOutcome)
    ensures !ValidEmailRequest(req) ==> o == SendOutcome(None, Err(Unprocessable))
    ensures o.result.Err? && ValidEmailRequest(req) ==> o.result.error == ServerError
    ensures o.queued.Some? <==> o.result.Ok?
    ensures o.result.Ok? ==> o.queued.value == o.result.value.recipients && o.queued.value != []
    ensures o.result.Ok? <==>
              && ValidEmailRequest(req) && answer(UserSource(filters)).Ok?
              && ExtractRecipients(answer(UserSource(filters)).value).Ok?
              && ExtractRecipients(answer(UserSource(filters)).value).value != []
    ensures o.result.Ok? ==>
              var rs := ExtractRecipients(answer(UserSource(filters)).value).value;
              o == SendOutcome(Some(rs), Ok(EmailResponse(CampaignMessage(|rs|), rs)))
  {
    if !ValidEmailRequest(req) then SendOutcome(None, Err(Unprocessable))
    else
      var fetched := answer(UserSource(filters));
      if fetched.Err? then SendOutcome(None, Err(ServerError))
      else if fetched.value == [] then SendOutcome(None, Err(ServerError))
      else
        var recipients := ExtractRecipients(fetched.value);
        if recipients.Err? then SendOutcome(None, Err(ServerError))
        else if recipients.value == [] then SendOutcome(None, Err(ServerError))
        else
          var rs := recipients.value;
          SendOutcome(Some(rs), Ok(EmailResponse(CampaignMessage(|rs|), rs)))
  }

  /** As written, a filter that matches no user, or only users without an
      e-mail, answers 500 instead of an empty campaign. */
  lemma SendEmailNoRecipientsFails(filters: UserFilters, req: EmailRequest, answer: Answers)
    requires ValidEmailRequest(req)
    requires answer(UserSource(filters)).Ok?
    requires forall x :: x in answer(UserSource(filters)).value ==> !HasEmail(x)
    ensures SendEmailToUsers(filters, req, answer).result == Err(ServerError)
  {
    var users := answer(UserSource(filters)).value;
    if users != [] {
      RecipientsEmptyIffNoEmail(users);
    }
  }

  /** `send_email_to_users` with the early returns it evidently intends: an
      empty recipient list and no task. */
  function SendEmailToUsersIntended(filters: UserFilters, req: EmailRequest, answer: Answers): (o: SendOutcome)
    ensures !ValidEmailRequest(req) ==> o == SendOutcome(None, Err(Unprocessable))
    ensures o.queued.Some? ==> o.result.Ok? && o.queued.value == o.result.value.recipients && o.queued.value != []
    ensures o.result.Ok? ==> (o.queued.None? <==> o.result.value.recipients == [])
  {
    if !ValidEmailRequest(req) then SendOutcome(None, Err(Unprocessable))
    else
      var fetched := answer(UserSource(filters));
      if fetched.Err? then SendOutcome(None, Err(ServerError))
      else if fetched.value == [] then
        SendOutcome(None, Ok(EmailResponse("No users found matching the filter criteria", [])))
      else
        var recipients := ExtractRecipients(fetched.value);
        if recipients.Err? then SendOutcome(None, Err(ServerError))
        else if recipients.value == [] then
          SendOutcome(None, Ok(EmailResponse("No valid email addresses found among matching users", [])))
        else
          var rs := recipients.value;
          SendOutcome(Some(rs), Ok(EmailResponse(CampaignMessage(|rs|), rs)))
  }

  /** Corrected, a matching set without e-mails is a successful empty
      campaign; with e-mails both versions agree. */
  lemma IntendedSendsToExactlyTheEmails(filters: UserFilters, req: EmailRequest, answer: Answers)
    requires ValidEmailRequest(req)
    requires answer(UserSource(filters)).Ok?
    requires ExtractRecipients(answer(UserSource(filters)).value).Ok?
    ensures SendEmailToUsersIntended(filters, req, answer).result.Ok?
    ensures SendEmailToUsersIntended(filters, req, answer).result.value.recipients
            == ExtractRecipients(answer(UserSource(filters)).value).value
    ensures SendEmailToUsersIntended(filters, req, answer).queued.Some? ==>
              SendEmailToUsersIntended(filters, req, answer) == SendEmailToUsers(filters, req, answer)
  {
  }
}
