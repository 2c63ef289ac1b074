/** The prototype planner of temp.py: `query_users` picks an index by
    key membership in the filter dict (email, company, jobTitle, then city
    and state together on the composite `CityStateIndex`, then city alone,
    then state alone), makes every filter on the chosen index an equality
    key condition and every other filter an equality post-filter, and
    raises when no index applies. `query_users_advanced` truncates the
    query's result to `limit`, and on any failure falls back to
    `fallback_scan`, a scan with the equality conjunction of all filters. */
module Prototype {
  import opened Values
  import opened Conditions

  /** An index and the filter fields that form its key condition, in key order. */
  datatype Choice = Choice(index: string, keyFields: seq<string>)

  /** The `if 'email' in filters: ... elif 'state' in filters:` chain. */
  function SelectIndex(d: seq<Entry>): (r: Option<Choice>)
    ensures r.Some? ==> r.value.keyFields != [] && Covers(r.value, d)
  {
    var ks := KeysOf(d);
    if "email" in ks then Some(Choice("EmailIndex", ["email"]))
    else if "company" in ks then Some(Choice("CompanyIndex", ["company"]))
    else if "jobTitle" in ks then Some(Choice("JobTitleIndex", ["jobTitle"]))
    else if "city" in ks && "state" in ks then Some(Choice("CityStateIndex", ["city", "state"]))
    else if "city" in ks then Some(Choice("CityStateIndex", ["city"]))
    else if "state" in ks then Some(Choice("CityStateIndex", ["state"]))
    else None
  }

  /** The same policy stated as a catalog: entries in priority order, the
      first one whose key fields are all present wins. */
  const Catalog: seq<Choice> := [
    Choice("EmailIndex", ["email"]),
    Choice("CompanyIndex", ["company"]),
    Choice("JobTitleIndex", ["jobTitle"]),
    Choice("CityStateIndex", ["city", "state"]),
    Choice("CityStateIndex", ["city"]),
    Choice("CityStateIndex", ["state"])]

  predicate Covers(c: Choice, d: seq<Entry>)
  {
    forall k :: k in c.keyFields ==> k in KeysOf(d)
  }

  function FirstCovering(cs: seq<Choice>, d: seq<Entry>): (r: Option<Choice>)
    ensures r.Some? ==> r.value in cs && Covers(r.value, d)
    ensures r.None? ==> forall c :: c in cs ==> !Covers(c, d)
  {
    if cs == [] then None
    else if Covers(cs[0], d) then Some(cs[0])
    else FirstCovering(cs[1..], d)
  }

  /** The if-chain is the catalog policy: the first catalog entry whose key
      fields are all in the dict. */
  lemma SelectIndexIsFirstCovering(d: seq<Entry>)
    ensures SelectIndex(d) == FirstCovering(Catalog, d)
  {
    var ks := KeysOf(d);
    var c0, c1, c2 := Choice("EmailIndex", ["email"]), Choice("CompanyIndex", ["company"]), Choice("JobTitleIndex", ["jobTitle"]);
    var c3, c4, c5 := Choice("CityStateIndex", ["city", "state"]), Choice("CityStateIndex", ["city"]), Choice("CityStateIndex", ["state"]);
    var t5 := [c5];
    var t4 := [c4] + t5;
    var t3 := [c3] + t4;
    var t2 := [c2] + t3;
    var t1 := [c1] + t2;
    var t0 := [c0] + t1;
    assert Catalog == t0;
    FirstCoveringCons(c5, [], d);
    assert [c5] + [] == t5;
    FirstCoveringCons(c4, t5, d);
    FirstCoveringCons(c3, t4, d);
    FirstCoveringCons(c2, t3, d);
    FirstCoveringCons(c1, t2, d);
    FirstCoveringCons(c0, t1, d);
    CoversOne("EmailIndex", "email", d);
    CoversOne("CompanyIndex", "company", d);
    CoversOne("JobTitleIndex", "jobTitle", d);
    CoversOne("CityStateIndex", "city", d);
    CoversOne("CityStateIndex", "state", d);
    CoversTwo("CityStateIndex", "city", "state", d);
  }

  lemma FirstCoveringCons(c: Choice, rest: seq<Choice>, d: seq<Entry>)
    ensures FirstCovering([c] + rest, d) == if Covers(c, d) then Some(c) else FirstCovering(rest, d)
  {
    assert ([c] + rest)[1..] == rest;
  }

  lemma CoversOne(index: string, k: string, d: seq<Entry>)
    ensures Covers(Choice(index, [k]), d) <==> k in KeysOf(d)
  {
  }

  lemma CoversTwo(index: string, k: string, l: string, d: seq<Entry>)
    ensures Covers(Choice(index, [k, l]), d) <==> k in KeysOf(d) && l in KeysOf(d)
  {
  }

  /** The five fields any index covers. */
  const IndexedFields: seq<string> := ["email", "company", "jobTitle", "city", "state"]

  lemma SelectIndexNoneIffUnindexed(d: seq<Entry>)
    ensures SelectIndex(d).None? <==> forall k :: k in IndexedFields ==> k !in KeysOf(d)
  {
    var ks := KeysOf(d);
    if forall k :: k in IndexedFields ==> k !in ks {
      assert "email" in IndexedFields && "company" in IndexedFields && "jobTitle" in IndexedFields;
      assert "city" in IndexedFields && "state" in IndexedFields;
    }
    if SelectIndex(d).None? {
      forall k | k in IndexedFields ensures k !in ks {
        assert k == "email" || k == "company" || k == "jobTitle" || k == "city" || k == "state";
      }
    }
  }

  /** `{k: v for k, v in filters.items() if k not in ks}`. */
  function Without(d: seq<Entry>, ks: seq<string>): (r: seq<Entry>)
    ensures forall e :: e in r <==> e in d && e.key !in ks
    ensures |r| <= |d|
  {
    if d == [] then []
    else if d[0].key in ks then Without(d[1..], ks)
    else [d[0]] + Without(d[1..], ks)
  }

  /** `[Attr(k).eq(v) for k, v in d.items()]`. */
  function EqPreds(d: seq<Entry>): (ps: seq<Pred>)
    ensures |ps| == |d|
    ensures forall i :: 0 <= i < |d| ==> ps[i] == Pred(d[i].key, Eq, d[i].value)
  {
    if d == [] then [] else [Pred(d[0].key, Eq, d[0].value)] + EqPreds(d[1..])
  }

  /** The key-condition comparisons `[Key(k).eq(filters[k]) for k in ks]`. */
  function KeyPreds(d: seq<Entry>, ks: seq<string>): (ps: seq<Pred>)
    requires forall k :: k in ks ==> k in KeysOf(d)
    ensures |ps| == |ks|
    ensures forall i :: 0 <= i < |ks| ==> ps[i] == Pred(ks[i], Eq, Lookup(d, ks[i]))
  {
    if ks == [] then [] else [Pred(ks[0], Eq, Lookup(d, ks[0]))] + KeyPreds(d, ks[1..])
  }

  datatype ProtoError =
    | NoSuitableIndex           // the ValueError of query_users
    | EmptyFilters              // the IndexError of fallback_scan on an empty dict
    | StoreError(failure: StoreFailure)

  /** The query `query_users` builds, or the ValueError it raises first. */
  function QueryRequest(d: seq<Entry>): (r: Result<Request, ProtoError>)
    ensures r.Err? <==> SelectIndex(d).None?
    ensures r.Err? ==> r.error == NoSuitableIndex
    ensures r.Ok? ==> r.value.Query? && r.value.index == SelectIndex(d).value.index
    ensures r.Ok? ==> Leaves(r.value.keyCondition) == KeyPreds(d, SelectIndex(d).value.keyFields)
    ensures r.Ok? ==> r.value.filter == FilterOf(EqPreds(Without(d, SelectIndex(d).value.keyFields)))
  {
    match SelectIndex(d)
    case None => Err(NoSuitableIndex)
    case Some(c) =>
      var keys := KeyPreds(d, c.keyFields);
      var remaining := Without(d, c.keyFields);
      Ok(Query(c.index, Conjoin(keys), FilterOf(EqPreds(remaining))))
  }

  /** An item has every filter's value at that filter's attribute. */
  predicate AllEqual(d: seq<Entry>, item: Item)
  {
    forall i :: 0 <= i < |d| ==> d[i].key in item && item[d[i].key] == d[i].value
  }

  lemma EqPredsMeaning(d: seq<Entry>, item: Item)
    ensures AllHold(EqPreds(d), item) <==> AllEqual(d, item)
  {
    assert forall i :: 0 <= i < |d| ==> EqPreds(d)[i] == Pred(d[i].key, Eq, d[i].value);
  }

  /** With both city and state given (and no email, company or jobTitle),
      both become key conditions on `CityStateIndex`, city first, and
      neither is a post-filter. */
  lemma CityAndStateTogether(d: seq<Entry>)
    requires DistinctKeys(d)
    requires "city" in KeysOf(d) && "state" in KeysOf(d)
    requires "email" !in KeysOf(d) && "company" !in KeysOf(d) && "jobTitle" !in KeysOf(d)
    ensures QueryRequest(d).Ok?
    ensures QueryRequest(d).value.index == "CityStateIndex"
    ensures Leaves(QueryRequest(d).value.keyCondition) ==
      [Pred("city", Eq, Lookup(d, "city")), Pred("state", Eq, Lookup(d, "state"))]
    ensures forall e :: e in Without(d, ["city", "state"]) ==> e.key != "city" && e.key != "state"
  {
  }

  /** The query admits exactly the items that match every filter: key
      conditions and post-filters together cover each filter once. */
  lemma QueryRequestSound(d: seq<Entry>, item: Item)
    requires DistinctKeys(d)
    requires QueryRequest(d).Ok?
    ensures Selects(QueryRequest(d).value, item) <==> AllEqual(d, item)
  {
    var c := SelectIndex(d).value;
    assert QueryRequest(d).value
      == Query(c.index, Conjoin(KeyPreds(d, c.keyFields)), FilterOf(EqPreds(Without(d, c.keyFields))));
    ChoiceQuerySound(d, c, item);
  }

  /** The soundness of the split for any index whose key fields are all
      filters. */
  lemma ChoiceQuerySound(d: seq<Entry>, c: Choice, item: Item)
    requires DistinctKeys(d)
    requires c.keyFields != [] && forall k :: k in c.keyFields ==> k in KeysOf(d)
    ensures Selects(Query(c.index, Conjoin(KeyPreds(d, c.keyFields)), FilterOf(EqPreds(Without(d, c.keyFields)))), item)
            <==> AllEqual(d, item)
  {
    var keys := KeyPreds(d, c.keyFields);
    var remaining := Without(d, c.keyFields);
    ConjoinMeansAll(keys, item);
    FilterOfMeansAll(EqPreds(remaining), item);
    EqPredsMeaning(remaining, item);
    if AllEqual(d, item) {
      MatchingItemPassesParts(d, c.keyFields, item);
    }
    if AllHold(keys, item) && AllEqual(remaining, item) {
      PassingPartsMatch(d, c.keyFields, item);
    }
  }

  lemma MatchingItemPassesParts(d: seq<Entry>, ks: seq<string>, item: Item)
    requires DistinctKeys(d)
    requires forall k :: k in ks ==> k in KeysOf(d)
    requires AllEqual(d, item)
    ensures AllHold(KeyPreds(d, ks), item)
    ensures AllEqual(Without(d, ks), item)
  {
    var keys := KeyPreds(d, ks);
    var remaining := Without(d, ks);
    forall i | 0 <= i < |keys| ensures Holds(keys[i], item) {
      var k := ks[i];
      assert k in KeysOf(d);
      var j :| 0 <= j < |d| && KeysOf(d)[j] == k;
      LookupFindsEntry(d, j);
    }
    forall i | 0 <= i < |remaining|
      ensures remaining[i].key in item && item[remaining[i].key] == remaining[i].value
    {
      assert remaining[i] in d;
    }
  }

  lemma PassingPartsMatch(d: seq<Entry>, ks: seq<string>, item: Item)
    requires DistinctKeys(d)
    requires forall k :: k in ks ==> k in KeysOf(d)
    requires AllHold(KeyPreds(d, ks), item)
    requires AllEqual(Without(d, ks), item)
    ensures AllEqual(d, item)
  {
    var keys := KeyPreds(d, ks);
    var remaining := Without(d, ks);
    forall i | 0 <= i < |d| ensures d[i].key in item && item[d[i].key] == d[i].value {
      if d[i].key in ks {
        var j :| 0 <= j < |ks| && ks[j] == d[i].key;
        LookupFindsEntry(d, i);
        assert Holds(keys[j], item);
      } else {
        assert d[i] in remaining;
      }
    }
  }

  /** The scan `fallback_scan` issues, or the IndexError it raises on an
      empty dict. */
  function FallbackRequest(d: seq<Entry>, limit: int): (r: Result<Request, ProtoError>)
    ensures r.Err? <==> d == []
    ensures r.Err? ==> r.error == EmptyFilters
    ensures r.Ok? ==> r.value.Scan? && r.value.limit == Some(limit)
    ensures r.Ok? ==> r.value.filter.Some? && Leaves(r.value.filter.value) == EqPreds(d)
  {
    if d == [] then Err(EmptyFilters)
    else Ok(Scan(Some(Conjoin(EqPreds(d))), Some(limit)))
  }

  /** The fallback scan filters on exactly the same equalities as the
      query it replaces. */
  lemma FallbackAgreesWithQuery(d: seq<Entry>, limit: int, item: Item)
    requires DistinctKeys(d)
    requires d != []
    ensures Selects(FallbackRequest(d, limit).value, item) <==> AllEqual(d, item)
    ensures QueryRequest(d).Ok? ==>
      (Selects(FallbackRequest(d, limit).value, item) <==> Selects(QueryRequest(d).value, item))
  {
    ConjoinMeansAll(EqPreds(d), item);
    EqPredsMeaning(d, item);
    if QueryRequest(d).Ok? {
      QueryRequestSound(d, item);
    }
  }

  /** Python's `s[:n]`: a negative `n` counts from the end. */
  function PyPrefix<T>(s: seq<T>, n: int): (r: seq<T>)
    ensures n >= 0 ==> |r| == if n < |s| then n else |s|
    ensures n < 0 ==> |r| == if -n < |s| then |s| + n else 0
    ensures r == s[..|r|]
  {
    if n >= 0 then (if n < |s| then s[..n] else s)
    else (if -n < |s| then s[..|s| + n] else [])
  }

  /** `query_users`: build the query and run it; a store failure is re-raised. */
  function QueryUsers(d: seq<Entry>, answer: Answers): Result<seq<Item>, ProtoError>
  {
    match QueryRequest(d)
    case Err(e) => Err(e)
    case Ok(req) =>
      match answer(req)
      case Ok(items) => Ok(items)
      case Err(f) => Err(StoreError(f))
  }

  /** `fallback_scan`: build the scan and run it; nothing is caught. */
  function FallbackScan(d: seq<Entry>, limit: int, answer: Answers): Result<seq<Item>, ProtoError>
  {
    match FallbackRequest(d, limit)
    case Err(e) => Err(e)
    case Ok(req) =>
      match answer(req)
      case Ok(items) => Ok(items)
      case Err(f) => Err(StoreError(f))
  }

  /** `query_users_advanced`; the limit defaults to 50. */
  function QueryUsersAdvanced(d: seq<Entry>, answer: Answers, limit: int := 50): (r: Result<seq<Item>, ProtoError>)
    ensures QueryUsers(d, answer).Ok? ==> r == Ok(PyPrefix(QueryUsers(d, answer).value, limit))
    ensures QueryUsers(d, answer).Err? ==> r == FallbackScan(d, limit, answer)
    ensures r.Err? ==> r.error != NoSuitableIndex
  {
    match QueryUsers(d, answer)
    case Ok(items) => Ok(PyPrefix(items, limit))
    case Err(_) => FallbackScan(d, limit, answer)
  }

  /** When the query path answers, at most `limit` items come back, and
      they are the first ones the query returned. */
  lemma AdvancedHonoursLimit(d: seq<Entry>, limit: nat, answer: Answers)
    requires QueryRequest(d).Ok? && answer(QueryRequest(d).value).Ok?
    ensures QueryUsersAdvanced(d, answer, limit).Ok?
    ensures |QueryUsersAdvanced(d, answer, limit).value| <= limit
    ensures QueryUsersAdvanced(d, answer, limit).value <= answer(QueryRequest(d).value).value
  {
  }

  /** Called without a limit, an answered query returns at most 50 records. */
  lemma AdvancedDefaultLimit(d: seq<Entry>, answer: Answers)
    requires QueryRequest(d).Ok? && answer(QueryRequest(d).value).Ok?
    ensures QueryUsersAdvanced(d, answer).Ok?
    ensures |QueryUsersAdvanced(d, answer).value| <= 50
  {
    AdvancedHonoursLimit(d, 50, answer);
  }

  /** A dict with no indexed field falls back to a scan whose filter is the
      equality conjunction of all its entries; the empty dict fails
      outright. */
  lemma UnindexedFallsBack(d: seq<Entry>, limit: int, answer: Answers)
    requires forall k :: k in IndexedFields ==> k !in KeysOf(d)
    ensures QueryUsersAdvanced(d, answer, limit) == FallbackScan(d, limit, answer)
    ensures d == [] ==> QueryUsersAdvanced(d, answer, limit) == Err(EmptyFilters)
  {
    SelectIndexNoneIffUnindexed(d);
  }
}
