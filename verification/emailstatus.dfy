/** The e-mail status routes (routes/email_status.py): one delivery record
    read by user id, and the list of all records, newest first. Both
    handlers wrap their body in a catch-all that turns every exception into
    500. */
module EmailStatusRoutes {
  import opened Values
  import opened Conditions
  import opened Ordering
  import opened Models
  import opened Store

  // ----- get_email_status -----

  /** `get_email_status` as written: the record is read by `userId`. The 404
      raised for a missing record is caught by the handler's own `except
      Exception` and re-raised as 500, as is a failing read. The record is
      then validated as an `EmailStatusResponse` (500). */
  function GetEmailStatus(t: Table, userId: string): (r: Result<EmailStatus, Failure>)
    ensures r.Err? ==> r.error == ServerError
    ensures r.Ok? <==> t.keyName == "userId" && userId != "" && userId in t.rows
                       && ParseEmailStatus(t.rows[userId]).Some?
    ensures r.Ok? ==> Some(r.value) == ParseEmailStatus(t.rows[userId])
  {
    var got := GetObject(t, "userId", userId);
    if got.Err? then Err(ServerError)
    // the 404 raised here is caught by the handler and becomes 500
    else if got.value.None? || got.value.value == map[] then Err(ServerError)
    else
      var e := ParseEmailStatus(got.value.value);
      if e.None? then Err(ServerError) else Ok(e.value)
  }

  /** A delivery record written for a user reads back as itself. */
  lemma StoredStatusReadsBack(t: Table, e: EmailStatus)
    requires t.keyName == "userId" && e.userId != "" && IsEmail(e.email)
    requires e.userId in t.rows && t.rows[e.userId] == EmailStatusItem(e)
    ensures GetEmailStatus(t, e.userId) == Ok(e)
  {
    EmailStatusRoundTrip(e);
  }

  /** As written, a user with no delivery record gets 500, not 404. */
  lemma MissingStatusIs500(t: Table, userId: string)
    requires t.keyName == "userId" && userId != "" && userId !in t.rows
    ensures GetEmailStatus(t, userId) == Err(ServerError)
    ensures GetEmailStatus(t, userId) != Err(NotFound)
  {
  }

  /** `get_email_status` with the 404 let through, as the handler raises
      it. */
  function GetEmailStatusIntended(t: Table, userId: string): (r: Result<EmailStatus, Failure>)
    ensures r == Err(NotFound) <==> t.keyName == "userId" && userId != ""
                                    && (userId !in t.rows || t.rows[userId] == map[])
    ensures r != Err(NotFound) ==> r == GetEmailStatus(t, userId)
  {
    var got := GetObject(t, "userId", userId);
    if got.Err? then Err(ServerError)
    else if got.value.None? || got.value.value == map[] then Err(NotFound)
    else
      var e := ParseEmailStatus(got.value.value);
      if e.None? then Err(ServerError) else Ok(e.value)
  }

  // ----- get_all_email_status -----

  /** `EmailStatusListResponse`. */
  datatype StatusList = StatusList(items: seq<EmailStatus>, totalCount: nat)

  /** The records of a full scan, sorted by `createdAt` (missing counting as
      the empty string), newest first. */
  function NewestFirst(all: seq<Item>): seq<Item>
    requires Sortable(all, "createdAt")
  {
    SortItems(all, "createdAt", true)
  }

  /** `get_all_email_status`: a full scan, the sort (a TypeError on mixed
      key kinds), and the list response built inside the handler, whose
      validation errors are caught with everything else: every failure is
      500. */
  function GetAllEmailStatus(answer: Answers): (r: Result<StatusList, Failure>)
    ensures r.Err? ==> r.error == ServerError
    ensures answer(FullScan).Err? ==> r.Err?
    ensures answer(FullScan).Ok? && !Sortable(answer(FullScan).value, "createdAt") ==> r.Err?
    ensures r.Ok? ==> answer(FullScan).Ok? && Sortable(answer(FullScan).value, "createdAt")
    ensures r.Ok? <==>
              && answer(FullScan).Ok? && Sortable(answer(FullScan).value, "createdAt")
              && ParseAll(NewestFirst(answer(FullScan).value), ParseEmailStatus).Some?
    ensures r.Ok? ==> r.value.totalCount == |answer(FullScan).value| && |r.value.items| == r.value.totalCount
    ensures r.Ok? ==> forall i :: 0 <= i < |r.value.items| ==>
              Some(r.value.items[i]) == ParseEmailStatus(NewestFirst(answer(FullScan).value)[i])
  {
    var fetched := answer(FullScan);
    if fetched.Err? then Err(ServerError)
    else if !Sortable(fetched.value, "createdAt") then Err(ServerError)
    else
      var sorted := NewestFirst(fetched.value);
      var items := ParseAll(sorted, ParseEmailStatus);
      if items.None? then Err(ServerError)
      else Ok(StatusList(items.value, |fetched.value|))
  }

  /** A record that validates has its `createdAt` as a string. */
  lemma ParsedCreatedAt(item: Item)
    requires ParseEmailStatus(item).Some?
    ensures SortKey(item, "createdAt") == Str(ParseEmailStatus(item).value.createdAt)
  {
  }

  /** The list is newest first: no record is listed after a later one. */
  lemma StatusesNewestFirst(answer: Answers, i: nat, j: nat)
    requires GetAllEmailStatus(answer).Ok?
    requires i < j < |GetAllEmailStatus(answer).value.items|
    ensures StrLe(GetAllEmailStatus(answer).value.items[j].createdAt,
                  GetAllEmailStatus(answer).value.items[i].createdAt)
  {
    var sorted := NewestFirst(answer(FullScan).value);
    assert InOrder(sorted[i], sorted[j], "createdAt", true);
    ParsedCreatedAt(sorted[i]);
    ParsedCreatedAt(sorted[j]);
  }

  /** Each listed status is the validated form of a scanned record. */
  lemma ListedStatusFetched(answer: Answers, i: nat)
    requires GetAllEmailStatus(answer).Ok?
    requires i < |GetAllEmailStatus(answer).value.items|
    ensures exists x :: x in answer(FullScan).value
                        && ParseEmailStatus(x) == Some(GetAllEmailStatus(answer).value.items[i])
  {
    var all := answer(FullScan).value;
    SortedElementFrom(all, "createdAt", true, i);
    assert NewestFirst(all)[i] in all;
  }

  /** Every scanned record is listed, validated. */
  lemma FetchedStatusListed(answer: Answers, k: nat)
    requires GetAllEmailStatus(answer).Ok?
    requires k < |answer(FullScan).value|
    ensures ParseEmailStatus(answer(FullScan).value[k]).Some?
    ensures ParseEmailStatus(answer(FullScan).value[k]).value in GetAllEmailStatus(answer).value.items
  {
    var all := answer(FullScan).value;
    var sorted := NewestFirst(all);
    var items := GetAllEmailStatus(answer).value.items;
    assert all[k] in multiset(sorted) by {
      assert all[k] in multiset(all);
    }
    var m :| 0 <= m < |sorted| && sorted[m] == all[k];
    assert Some(items[m]) == ParseEmailStatus(all[k]);
  }
}
