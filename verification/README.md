# Event and user backend: query planning, paging and route decisions in Dafny

This project models the decision logic of a FastAPI service that keeps
users, events, user–event relationships and e-mail delivery records in
DynamoDB tables, and proves properties of it. Each effect of the service
is reduced to which store request is built, which records are written and
which response or error code comes back. The model has these parts:

- **Values, Conditions** (`values.dfy`, `conditions.dfy`): stored
  attribute values, records as maps, and Python dicts as ordered entry
  lists. Also the boto3 condition objects: `Key(..).eq`, `Attr(..).eq/gte/lte`
  and their `&` conjunction. These come with an evaluation semantics, so a
  built request can be compared with an independent statement of which
  records it should select.
- **Planner** (`planner.dfy`): `DynamoDB.query_employees_by_index`. It
  chooses the index by the priority company, jobTitle, city, state. It
  builds one key condition and the post-filters, and picks query or scan.
  It also contains the dispatch of `filter_users2`/`send_email_to_users`
  between a full scan and the planner.
- **Prototype** (`prototype.dfy`): the planner prototype `query_users`.
  It picks the index by key membership, uses the composite
  `CityStateIndex` and raises `ValueError`. The prototype also includes
  `query_users_advanced` (truncate to `limit`, fall back on any failure)
  and `fallback_scan`.
- **Ordering, Pager** (`ordering.dfy`, `pager.dfy`): the
  `list.sort(key=lambda x: x.get(f, ""), reverse=…)` calls, including
  Python's TypeError on keys of mixed kinds, and the pagination
  arithmetic of `filter_users2`.
- **Store** (`store.dfy`): a table is a map from key value to record.
  It covers `create_object` (a conditional put whose failures become 400),
  `get_object`, and `update_object` (the `SET #k=:k` expression builder
  and an interpreter for it). DynamoDB's `update_item` upserts: it creates
  the record when the key is unknown.
- **Models** (`models.dfy`): the pydantic models of
  `routes/base_models.py` as datatypes with validity predicates. Each
  response model has a parser from a stored record, with a round-trip
  lemma. `dict(exclude_unset=True)` is modelled through per-field slots.
- **Users, Events, EmailStatusRoutes** (`users.dfy`, `events.dfy`,
  `emailstatus.dfy`): the route handlers `filter_users2`, `patch_user`,
  `update_user`, `send_email_to_users`, `create_event`, `get_event`,
  `get_event_by_slug`, `update_event`, `get_email_status` and
  `get_all_email_status`. Failures are `Result` values carrying the HTTP
  status the handler produces: 400, 404, 422 (request validation) or 500.

Store reads that go beyond a key lookup (queries, scans) are not
executed. Each handler takes an `answer: Request -> Result<seq<Item>, StoreFailure>`
parameter. The model proves what that request selects. Generated ids and
timestamps are parameters as well.

Where the code and its apparent intent disagree, the model follows the
code. Four such places are listed under "## Findings", each with the
corrected behaviour beside it.

## Model

| member | source | states |
|---|---|---|
| Conditions.ConjoinMeansAll | temp.py:74-76 | the `&`-fold of one or more comparisons holds on a record exactly when every comparison holds |
| Conditions.FilterOfMeansAll | database/dynamodb.py:148-149 | the optional `FilterExpression` (absent for no predicates, else their AND) admits a record exactly when every predicate holds |
| Conditions.FilterOf | database/dynamodb.py:148-149 | a filter expression is present iff the predicate list is non-empty, and then its leaves are exactly that list in order |
| Planner.ChooseIndex | database/dynamodb.py:108-116 | no index iff none of company, jobTitle, city, state is truthy; otherwise the chosen field is truthy and every field before it in the priority is falsy |
| Planner.Plan | database/dynamodb.py:118-155 | a query is issued iff an index was chosen, and then with that index and the key condition; a scan otherwise, with no limit; the filter is the AND of the post-filters, present iff there are any |
| Planner.PlanKeyCondition | database/dynamodb.py:119-123 | when `f` is the first truthy field in priority order, the plan uses `f`'s index and exactly one equality on `f`'s key with the supplied value |
| Planner.NoStringFilterMeansScan | database/dynamodb.py:113-116 | with all four string filters falsy no index is chosen and the request is a scan |
| Planner.NumericIndexesNeverChosen | database/dynamodb.py:102-116 | a truthy hosted/attended bound never selects `NumberOfEventsHostedIndex`/`NumberOfEventsAttendedIndex` and always appears as a `gte`/`lte` post-filter |
| Planner.PostFiltersComeFromFields | database/dynamodb.py:127-143 | every post-filter comes from a truthy field other than the chosen one, with that field's comparator and value, and never filters on the key attribute |
| Planner.PostFilterCount | database/dynamodb.py:127-143 | the number of post-filters is the number of truthy filters, minus one when an index was chosen |
| Planner.SatisfiesIsAllFields | database/dynamodb.py:127-143 | the reference filter (`eq` for strings, `>=` for minima, `<=` for maxima, each only when truthy) is the conjunction of the per-field conditions |
| Planner.PlanSound | database/dynamodb.py:108-155 | the planned request (key condition plus post-filters, or a scan with post-filters) selects exactly the records satisfying the reference filter |
| Planner.FalsyIsAbsent | database/dynamodb.py:136-143 | replacing every falsy argument (`None`, `""`, `0`) by `None` does not change the plan |
| Planner.DispatchMatchesPlanner | routes/users.py:118-131 | the route's source request equals the planner's request, and it is the full scan when all eight filters are falsy |
| Prototype.SelectIndexIsFirstCovering | temp.py:36-64 | the if-chain is the policy "first catalog entry (email, company, jobTitle, city+state, city, state) whose key fields are all present" |
| Prototype.SelectIndexNoneIffUnindexed | temp.py:36-67 | no index is selected exactly when none of email, company, jobTitle, city, state is a key of the filter dict |
| Prototype.QueryRequest | temp.py:36-96 | `ValueError` exactly when no index is selected; otherwise a query on the selected index whose key condition is the `eq` list over its key fields and whose filter is the `eq` conjunction over the remaining entries |
| Prototype.CityAndStateTogether | temp.py:51-54 | with city and state present (and no higher-priority field) both are key conditions on `CityStateIndex`, city first, and neither remains as a filter |
| Prototype.Without | temp.py:39-64 | the remaining filters are exactly the entries whose key is not a key field |
| Prototype.QueryRequestSound | temp.py:69-96 | the built query selects exactly the records equal to every filter value: key conditions and remaining filters split the dict without loss |
| Prototype.FallbackRequest | temp.py:126-137 | `IndexError` exactly on the empty dict; otherwise a scan with `Limit=limit` whose filter leaves are the `eq` comparisons of all entries in order |
| Prototype.FallbackAgreesWithQuery | temp.py:126-132 | the fallback scan selects exactly the records equal to every filter value, and so agrees with the indexed query whenever that exists |
| Prototype.PyPrefix | temp.py:116 | `results[:limit]` is a prefix of the results, of length `min(limit, n)` for non-negative limits and Python's negative-slice length otherwise |
| Prototype.QueryUsersAdvanced | temp.py:110-120 | a successful query is truncated to `limit`; any failure (including `ValueError`) is replaced by the fallback scan, so `ValueError` never escapes |
| Prototype.AdvancedHonoursLimit | temp.py:114-116 | when the query succeeds the result is a prefix of the query's records with at most `limit` items |
| Prototype.AdvancedDefaultLimit | temp.py:110-116 | called without a limit, an answered query returns at most 50 records |
| Prototype.UnindexedFallsBack | temp.py:66-67 | a dict with no indexed field always takes the fallback scan, which fails on the empty dict |
| Ordering.SortItems | routes/users.py:135 | the sorted records are a permutation of the input, ordered by `x.get(field, "")` ascending or descending |
| Ordering.MissingKeysSortLast | routes/email_status.py:49 | newest first, a record lacking the sort attribute is followed only by records whose key is also `""` |
| Ordering.SortByAbsentKeepsOrder | routes/users.py:135 | sorting by an attribute no record has keeps the store order in both directions (stability) |
| Ordering.SortedElementFrom | routes/users.py:135 | every record of the sorted output is one of the input records |
| Pager.CeilDiv | routes/users.py:139 | `(n + size - 1) // size` is the least `q` with `q * size >= n` |
| Pager.Paginate | routes/users.py:138-147 | total count and ceiling page count; the page is the slice starting at `(page-1)*pagesize`, at most `pagesize` items, empty iff the offset is at or past the end; `has_next` iff `page*pagesize < total`, `has_previous` iff `page > 1` |
| Pager.BelowPageCount | routes/users.py:146 | `page < total_pages` holds exactly when `page * pagesize < total_count` |
| Pager.NextMeansFullPage | routes/users.py:143-146 | a page that has a next page is full |
| Pager.PastTheEnd | routes/users.py:140-146 | a page number beyond the page count yields an empty page and no next page, never an error |
| Pager.PagesCoverAll | routes/users.py:139-143 | concatenating pages 1 to `total_pages` gives back every record in order |
| Store.CreateObject | database/dynamodb.py:12-20 | a put either fails with 400 or adds exactly the record under its key, leaving every other record as it was |
| Store.CreateNeverOverwrites | database/dynamodb.py:14-17 | on a table keyed by `id` the conditional put fails exactly when a record with that id exists |
| Store.CreatePreservesWellFormed | database/dynamodb.py:14-17 | a successful put keeps every record stored under its own key value |
| Store.CreateThenGet | database/dynamodb.py:12-24 | a record just created reads back unchanged by its key |
| Store.GetObject | database/dynamodb.py:22-24 | a lookup by the wrong key name or an empty key fails; otherwise it finds a record iff one is stored under the key, and returns it |
| Store.BuildUpdate | database/dynamodb.py:29-40 | one `#k=:k` clause per input key in input order, the names map sends `#k` to `k`, the values map sends `:k` to the value |
| Store.SingleAttributeExpression | database/dynamodb.py:42 | a one-attribute update is the text `SET #k=:k` |
| Store.DictExpression | database/dynamodb.py:33-42 | for any dict the expression is `SET ` followed by one `#k=:k` per key, in the dict's order, separated by `, ` |
| Store.BuildUpdateMeaning | database/dynamodb.py:29-55 | applying the built expression to a record overwrites exactly the given attributes with the given values and keeps the rest |
| Store.UpdateObject | database/dynamodb.py:26-57 | a rejected update is 400 and changes nothing; otherwise the new record holds every written value, keeps the old attributes not written, and replaces the stored one |
| Store.UpdateResultNonEmpty | database/dynamodb.py:48-55 | an accepted update never returns an empty record |
| Store.UpdateUpserts | database/dynamodb.py:48-55 | updating an unknown id creates a record holding just the id and the written attributes |
| Store.UpdatePreservesWellFormed | database/dynamodb.py:48-55 | the returned record carries its id, and every record stays under its own key |
| Models.ParseGender | routes/base_models.py:7-11 | a gender string parses iff it is one of the four enum names, and the parsed member prints as that name |
| Models.ParseUser | routes/base_models.py:13-46 | a record that validates as `UserResponse` satisfies the `UserBase` constraints, and missing counters default to 0 |
| Models.UserRoundTrip | routes/base_models.py:13-46 | a valid user written as a record validates back to itself |
| Models.UserUpdateData | routes/base_models.py:30-40 | `dict(exclude_unset=True)` of a `UserUpdate` has distinct keys from the declared fields and always contains `phoneNumber` |
| Models.KeepEmptyIff | routes/base_models.py:62-70 | the set-fields dict is empty exactly when no field was set |
| Models.KeepFrom | routes/base_models.py:62-70 | every entry of the set-fields dict is a set field with its name and value |
| Models.ParseEvent | routes/base_models.py:49-57 | a record that validates as `EventResponse` satisfies the `EventBase` constraints |
| Models.EventRoundTrip | routes/base_models.py:49-76 | a valid event, stored with ISO text dates or dumped with datetime objects, validates back to itself |
| Models.EventUpdateData | routes/base_models.py:62-70 | `dict(exclude_unset=True)` of an `EventUpdate` has distinct declared keys and is empty exactly when nothing was set |
| Models.ParseRole | routes/base_models.py:81 | a relationship type parses exactly for `host` and `attendee` |
| Models.RelationshipItem | routes/users.py:91-93 | the stored record is the relationship's four fields plus the record id; without the id it is exactly the relationship's dict |
| Models.RelationshipRoundTrip | routes/base_models.py:78-82 | a relationship written as a record reads back as itself |
| Models.ParseEmailStatus | routes/base_models.py:106-110 | a record validates as `EmailStatusBase` exactly when it has an e-mail, string `userId` and `createdAt`, and status `sent` or `failed` |
| Models.EmailStatusRoundTrip | routes/base_models.py:106-110 | a delivery record with a valid e-mail reads back as itself |
| Models.ParseAll | routes/base_models.py:119-121 | a list validates iff every element does, and then element by element |
| Users.FilterUsers | routes/users.py:102-160 | bad query parameters are 422; any failure inside the handler is 500; a successful listing needs the store's answer, and whenever the query is valid and the store answers, the response is the paged listing of exactly the records the dispatched request returned |
| Users.ListUsers | routes/users.py:133-157 | succeeds exactly when the records are sortable by the chosen attribute and every record on the requested page validates; the page then lists, validated, the records of the sorted result at the page's positions, with the count and flags of the paging arithmetic; every failure is 500 |
| Users.ListedRecordFetched | routes/users.py:135-143 | every listed user is the validated form of a fetched record |
| Users.ListedUsersMatchFilters | routes/users.py:117-143 | when the store answers the request faithfully, every listed user satisfies all supplied filters |
| Users.DefaultSortKeepsStoreOrder | routes/users.py:112-135 | with the default sort on `createdAt` and no record carrying it, the store order is kept |
| Users.PatchUser | routes/users.py:89-99 | an unknown relationship type is 422 and changes nothing; the join succeeds exactly when the relationship record can be created, the user table is keyed by `id` and holds the user, and the user's counter is a number or missing; the response is then the relationship without its record id, as the `UserEventRelationship` response model serializes it |
| Users.CounterUpdateAccepted | routes/users.py:95-98 | the counter write is accepted exactly when the user table is keyed by `id` and the user id is non-empty |
| Users.PatchIncrementsCounter | routes/users.py:95-98 | on success the role's counter becomes its old value (default 0) plus one, and every other attribute and user is unchanged |
| Users.RelationshipPersists | routes/users.py:91-96 | the relationship record is written before the user is read, so it persists whatever happens after |
| Users.PatchUnknownUser | routes/users.py:96-98 | joining with an unknown user id is 500 (the `.get` on `None`) and leaves the users table unchanged |
| Users.UpdateUser | routes/users.py:71-80 | an invalid body is 422 and changes nothing; a successful answer is a valid user |
| Users.UpdatedUserIsReturned | routes/users.py:77-80 | a successful update answers the validated form of the record the store returned after the write |
| Users.UpdatedUserShowsFirstName | routes/users.py:73-80 | a first name the request set is the first name of the answered user |
| Users.UpdatedUserShowsPhone | routes/users.py:73-80 | the answered user carries the request's phone number (none when it is null), since that required field is always written |
| Users.UserUpdateResponse | routes/users.py:77-80 | 400 exactly when the store rejects the update; 404 exactly when it returns an empty record; otherwise the table is the store's; a successful answer is the validated form of the returned record, and a non-empty record that validates is always answered |
| Users.UserUpdateAccepted | database/dynamodb.py:29-40 | every `UserUpdate` dict produces placeholders the store accepts, on a table keyed by `id` |
| Users.UpdateUserNever400 | routes/users.py:73-75 | the "No data provided" branch is unreachable, since `phoneNumber` is required and always in the dict |
| Users.UpdateUserNever404 | routes/users.py:77-79 | the "User not found" branch is unreachable, since `update_item` never answers with nothing |
| Users.UpdateUnknownUserCreatesRecord | routes/users.py:77-79 | as written, updating an unknown id creates a user record instead of answering 404 |
| Users.UpdateUserIntended | routes/users.py:77-79 | with the existence check the 404 branch stands for, an unknown id is 404 and nothing is written; a known id behaves as written |
| Users.WithEmail | routes/users.py:210 | only users with a truthy e-mail, and all of them |
| Users.WithEmailAppend | routes/users.py:210 | the selection keeps order: selecting from two lists joined is joining the two selections |
| Users.WithEmailSingle | routes/users.py:210 | a single user is kept exactly when its e-mail is truthy |
| Users.ExtractRecipients | routes/users.py:210 | 500 exactly when a user with an e-mail has no `id`; otherwise one `(email, id)` pair per user with a truthy e-mail, in user order |
| Users.RecipientsEmptyIffNoEmail | routes/users.py:210-212 | the recipient list is empty exactly when no user has a truthy e-mail |
| Users.SendEmailToUsers | routes/users.py:163-235 | an invalid request is 422; every other failure is 500; the campaign starts exactly when the request is valid, the store answers, and the recipient list can be built and is non-empty; it then queues one task for that list and reports its length |
| Users.SendEmailNoRecipientsFails | routes/users.py:200-219 | as written, a result with no e-mail addresses ends in 500 |
| Users.SendEmailToUsersIntended | routes/users.py:200-232 | with the early responses carrying an empty recipient list, a task is queued exactly when there are recipients |
| Users.IntendedSendsToExactlyTheEmails | routes/users.py:200-232 | the corrected handler answers with exactly the extracted recipients, and agrees with the handler as written whenever it queues a task |
| Events.CreateEvent | routes/events.py:18-31 | an invalid body is 422; a failed put changes nothing; a success stores the event under the generated id with ISO text dates and answers with that event |
| Events.CreateEventFreshId | routes/events.py:20-30 | creation succeeds exactly when the generated id is non-empty and unused, and otherwise fails with 400 |
| Events.TextDatesOfDump | routes/events.py:24-28 | converting the dumped datetimes to ISO text gives the stored form of the event |
| Events.Partition | routes/events.py:45-51 | the loop computes the host and attendee lists of the roster |
| Events.MembersCount | routes/events.py:47-51 | hosts plus attendees never outnumber the records, and match them when every tag is host or attendee |
| Events.TaggedIsListed | routes/events.py:47-51 | the user id of every record tagged with a role is in that role's list |
| Events.ListedIsTagged | routes/events.py:47-51 | every listed id comes from a record tagged with that role |
| Events.GetEvent | routes/events.py:38-54 | 404 exactly when no non-empty event is stored under the id; succeeds exactly when a non-empty stored event validates and its relationship records are answered and processable; `hosts`/`attendees` are then the member lists of those records |
| Events.GetEventReadsStored | routes/events.py:40-43 | the answer validates to the same event as the stored record |
| Events.JoinedUserListed | routes/events.py:44-53 | a relationship returned for the event shows its user id under the list for its role |
| Events.CreateThenGetEvent | routes/events.py:18-54 | an event just created reads back as itself, with no hosts when no relationship exists |
| Events.GetEventBySlug | routes/events.py:56-61 | 404 exactly when the slug query returns nothing; otherwise the non-empty list itself |
| Events.SlugResultsCarrySlug | routes/events.py:58-61 | when the store answers faithfully, every returned event carries the slug asked for |
| Events.TextDates | routes/events.py:69-73 | the conversion keeps every key in place, turns datetimes under `startAt`/`endAt` into text and leaves every other entry unchanged |
| Events.EventUpdateResponse | routes/events.py:75-78 | 400 exactly when the store rejects the update; 404 exactly when it returns an empty record; a returned record that does not validate is 500 |
| Events.UpdateEvent | routes/events.py:63-78 | an invalid body is 422; an update setting nothing is 400 and writes nothing; a success is a valid event |
| Events.EventUpdateAccepted | database/dynamodb.py:29-40 | every non-empty `EventUpdate` dict, dates converted, produces placeholders and values the store accepts |
| Events.UpdateEventNever404 | routes/events.py:76-77 | the "Event not found" branch is unreachable, since `update_item` never answers with nothing |
| Events.UpdatedEventShowsTitle | routes/events.py:63-78 | a title the request set is the title of the answered event |
| Events.UpdatedEventShowsStart | routes/events.py:69-78 | a start time the request set is read back from its ISO text as the answered start time |
| Events.UnsetNotWritten | routes/events.py:65 | any declared field the request left out is not among the written attributes |
| Events.TitleNotWritten | routes/events.py:65 | an update without a title does not write a title |
| Events.UpdateUnknownEventAsWritten | routes/events.py:75-78 | as written, updating an unknown id without a title writes a partial record under that id and answers 500 |
| Events.UpdateEventIntended | routes/events.py:75-77 | with the existence check the 404 branch stands for, an unknown id is 404 and nothing is written; a known id behaves as written |
| EmailStatusRoutes.GetEmailStatus | routes/email_status.py:16-36 | the record is looked up under key name `userId`; every failure is 500; success iff a record is stored and validates, which is then the answer |
| EmailStatusRoutes.StoredStatusReadsBack | routes/email_status.py:23-31 | a stored delivery record is answered as itself |
| EmailStatusRoutes.MissingStatusIs500 | routes/email_status.py:25-36 | as written, a user with no record gets 500, not 404 |
| EmailStatusRoutes.GetEmailStatusIntended | routes/email_status.py:25-29 | with the 404 let through, it is 404 exactly when no non-empty record is stored, and otherwise agrees with the handler |
| EmailStatusRoutes.GetAllEmailStatus | routes/email_status.py:39-60 | every failure is 500; succeeds exactly when the scan is answered, its records are sortable by `createdAt`, and all of them validate; on success `total_count` is the number of scanned records and the items are their validated forms in newest-first order |
| EmailStatusRoutes.StatusesNewestFirst | routes/email_status.py:49 | no listed status has an earlier `createdAt` than a status after it |
| EmailStatusRoutes.ListedStatusFetched | routes/email_status.py:46-54 | every listed status is the validated form of a scanned record |
| EmailStatusRoutes.FetchedStatusListed | routes/email_status.py:46-54 | every scanned record is listed, validated |

## Left out

- `init_data.py` (seeding script), `services/email_service.py` (SMTP, TLS, MIME and per-recipient status writes), `settings.py`, `main.py`, `routes/api.py`: I/O and wiring with no decision logic. The background send task is modelled only as "queued with these recipients".
- DynamoDB query and scan execution: the handlers take the store's answer as a parameter. Result paging and `ExclusiveStartKey` (database/dynamodb.py:145-146) are not modelled, and neither is whether DynamoDB accepts a state-only key on a range key (temp.py:61-64).
- The key schemas of the tables are not part of the source; a table carries its key attribute name (`Table.keyName`). The properties about `update_object` assume tables keyed by `id`, which the code hard-codes.
- `uuid.uuid4()`, `datetime.utcnow()` and `isoformat()`: ids, timestamps and ISO strings are parameters, and a datetime is its ISO text.
- Store failures other than a refused conditional write and a refused update (throttling, network) are a single `StoreFailure` on query and scan answers. `get_object` failures are only a wrong key name or an empty key.
- Concurrency: the read-then-write counter race of `patch_user` (routes/users.py:96-98) and the background task run after the response. Each call is modelled as one sequential step.
- `print` calls (database/dynamodb.py:44-46, 150; temp.py:98-101, 107, 118).
- `delete_object`, `scan_objects`, `create_user`, `get_user`, `get_all_users`, `get_all_events` and `delete_event`: routes and wrappers outside the modelled core.
- Models.IsEmail: pydantic's `EmailStr` syntax is reduced to "one `@` with non-empty text on both sides".
- Models.ParseUser: pydantic's coercions (a number given where a string is expected, and so on) are not modelled; a value of the wrong kind fails validation.
- Models.ParseDateTime: a datetime attribute validates when it is a datetime object or any non-empty text; ISO 8601 syntax is not checked.
- Ordering.Sortable: a list-valued sort attribute counts as a `TypeError`, whereas Python orders lists lexicographically; no attribute the listings sort by holds a list.
- Ordering.SortItems: stability of the sort is proved only for the case where no record has the sort attribute (Ordering.SortByAbsentKeepsOrder), not in general.

## Findings

| source | as written | input that shows it | evidently intended | confidence | as-written member | corrected member |
|---|---|---|---|---|---|---|
| routes/users.py:200-219 | the early `EmailResponse` calls omit the required `recipients` field, so pydantic raises and the handler answers 500 | filters that match only users without an e-mail | answer 200 with an empty recipient list and queue nothing | not executed | Users.SendEmailNoRecipientsFails | Users.SendEmailToUsersIntended |
| routes/email_status.py:25-36 | the 404 raised inside `try` is caught by `except Exception` and re-raised as 500 | a `user_id` with no delivery record | answer 404 "Email status not found" | not executed | EmailStatusRoutes.MissingStatusIs500 | EmailStatusRoutes.GetEmailStatusIntended |
| routes/users.py:77-79 | `update_item` creates a record for an unknown key and returns it, so the 404 branch never runs and a user record is created | `PUT /users/{id}` with an id that does not exist | answer 404 "User not found" and write nothing | not executed | Users.UpdateUnknownUserCreatesRecord | Users.UpdateUserIntended |
| routes/events.py:75-78 | `update_item` creates a record for an unknown key; without a title it fails `EventResponse` validation, so the handler answers 500 after writing a partial event | `PUT /events/{id}` with an unknown id and a body setting only `venue` | answer 404 "Event not found" and write nothing | not executed | Events.UpdateUnknownEventAsWritten | Events.UpdateEventIntended |
