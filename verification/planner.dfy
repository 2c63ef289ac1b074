/** The production query planner, `DynamoDB.query_employees_by_index`
    (database/dynamodb.py): from up to eight optional user filters it picks
    at most one secondary index by a fixed priority, builds one equality key
    condition on it, turns every other filter that was given into an AND-ed
    post-filter, and issues a query when an index was picked and a scan
    otherwise. A filter whose value is falsy (None, "" or 0) counts as
    absent. */
module Planner {
  import opened Values
  import opened Conditions

  /** The eight filter arguments, each optional. */
  datatype UserFilters = UserFilters(
    company: Option<string>,
    jobTitle: Option<string>,
    city: Option<string>,
    state: Option<string>,
    minHosted: Option<int>,
    maxHosted: Option<int>,
    minAttended: Option<int>,
    maxAttended: Option<int>)

  datatype Field =
    | Company | JobTitle | City | State
    | MinHosted | MaxHosted | MinAttended | MaxAttended

  /** One row of `key_map`: the index a field would use, the attribute it
      constrains and the comparison it stands for. */
  datatype KeyMapRow = KeyMapRow(index: string, key: string, op: Comparator)

  const HostedAttr := "number_of_events_hosted"
  const AttendedAttr := "number_of_events_attended"

  function KeyMap(f: Field): KeyMapRow
  {
    match f
    case Company => KeyMapRow("CompanyIndex", "company", Eq)
    case JobTitle => KeyMapRow("JobTitleIndex", "jobTitle", Eq)
    case City => KeyMapRow("CityIndex", "city", Eq)
    case State => KeyMapRow("StateIndex", "state", Eq)
    case MinHosted => KeyMapRow("NumberOfEventsHostedIndex", HostedAttr, Gte)
    case MaxHosted => KeyMapRow("NumberOfEventsHostedIndex", HostedAttr, Lte)
    case MinAttended => KeyMapRow("NumberOfEventsAttendedIndex", AttendedAttr, Gte)
    case MaxAttended => KeyMapRow("NumberOfEventsAttendedIndex", AttendedAttr, Lte)
  }

  function TruthyStr(o: Option<string>): Option<Value>
  {
    if o.Some? && o.value != "" then Some(Str(o.value)) else None
  }

  function TruthyNum(o: Option<int>): Option<Value>
  {
    if o.Some? && o.value != 0 then Some(Num(o.value)) else None
  }

  /** The value given for a field, as the store sees it, when it is truthy. */
  function Supplied(filters: UserFilters, f: Field): Option<Value>
  {
    match f
    case Company => TruthyStr(filters.company)
    case JobTitle => TruthyStr(filters.jobTitle)
    case City => TruthyStr(filters.city)
    case State => TruthyStr(filters.state)
    case MinHosted => TruthyNum(filters.minHosted)
    case MaxHosted => TruthyNum(filters.maxHosted)
    case MinAttended => TruthyNum(filters.minAttended)
    case MaxAttended => TruthyNum(filters.maxAttended)
  }

  /** The fields that can select an index, highest priority first. */
  const IndexPriority: seq<Field> := [Company, JobTitle, City, State]

  /** All eight fields, in the order the post-filters are appended. */
  const PostFilterOrder: seq<Field> :=
    [JobTitle, City, State, Company, MinHosted, MaxHosted, MinAttended, MaxAttended]

  /** Position of a string field in the priority list. */
  function IndexOf(f: Field): (k: nat)
    requires f in IndexPriority
    ensures k < |IndexPriority| && IndexPriority[k] == f
  {
    match f
    case Company => 0
    case JobTitle => 1
    case City => 2
    case State => 3
  }

  /** The `if company: ... elif state:` chain. */
  function ChooseIndex(filters: UserFilters): (r: Option<Field>)
    ensures r.None? <==> forall i :: 0 <= i < |IndexPriority| ==> Supplied(filters, IndexPriority[i]).None?
    ensures r.Some? ==> r.value in IndexPriority && Supplied(filters, r.value).Some?
    ensures r.Some? ==> forall j :: 0 <= j < IndexOf(r.value) ==> Supplied(filters, IndexPriority[j]).None?
  {
    if Supplied(filters, Company).Some? then assert IndexPriority[0] == Company; Some(Company)
    else if Supplied(filters, JobTitle).Some? then assert IndexPriority[1] == JobTitle; Some(JobTitle)
    else if Supplied(filters, City).Some? then assert IndexPriority[2] == City; Some(City)
    else if Supplied(filters, State).Some? then assert IndexPriority[3] == State; Some(State)
    else None
  }

  /** The post-filter one field contributes: its comparison when it was
      given and its attribute is not the chosen key, nothing otherwise. */
  function PostFilter(filters: UserFilters, chosen: Option<Field>, f: Field): seq<Pred>
  {
    match Supplied(filters, f)
    case None => []
    case Some(v) =>
      if chosen.Some? && KeyMap(chosen.value).key == KeyMap(f).key then []
      else [Pred(KeyMap(f).key, KeyMap(f).op, v)]
  }

  /** The post-filters in the order the source appends them. */
  function PostFilters(filters: UserFilters, chosen: Option<Field>): seq<Pred>
  {
    PostFilter(filters, chosen, JobTitle) + PostFilter(filters, chosen, City)
    + PostFilter(filters, chosen, State) + PostFilter(filters, chosen, Company)
    + PostFilter(filters, chosen, MinHosted) + PostFilter(filters, chosen, MaxHosted)
    + PostFilter(filters, chosen, MinAttended) + PostFilter(filters, chosen, MaxAttended)
  }

  /** The request the planner builds, with its parts. */
  datatype QueryPlan = QueryPlan(
    index: Option<string>,
    keyCondition: Option<Pred>,
    postFilters: seq<Pred>,
    request: Request)

  function Plan(filters: UserFilters): (p: QueryPlan)
    ensures p.request.Query? <==> p.index.Some?
    ensures p.index.Some? <==> p.keyCondition.Some?
    ensures p.request.filter == FilterOf(p.postFilters)
    ensures p.request.Scan? ==> p.request.limit.None?
    ensures p.request.Query? ==>
      p.request.index == p.index.value && p.request.keyCondition == Atom(p.keyCondition.value)
  {
    var chosen := ChooseIndex(filters);
    var posts := PostFilters(filters, chosen);
    match chosen
    case None => QueryPlan(None, None, posts, Scan(FilterOf(posts), None))
    case Some(f) =>
      var key := Pred(KeyMap(f).key, Eq, Supplied(filters, f).value);
      QueryPlan(Some(KeyMap(f).index), Some(key), posts, Query(KeyMap(f).index, Atom(key), FilterOf(posts)))
  }

  // ---------------------------------------------------------------------
  // Properties of the plan

  /** The chosen index is the one of the first given field among company,
      jobTitle, city and state, and the key condition is one equality on
      that field's attribute with the given value. */
  lemma PlanKeyCondition(filters: UserFilters, f: Field)
    requires f in IndexPriority
    requires Supplied(filters, f).Some?
    requires forall g :: g in IndexPriority[..IndexOf(f)] ==> Supplied(filters, g).None?
    ensures Plan(filters).index == Some(KeyMap(f).index)
    ensures Plan(filters).keyCondition == Some(Pred(KeyMap(f).key, Eq, Supplied(filters, f).value))
  {
    var k := IndexOf(f);
    forall j | 0 <= j < k ensures Supplied(filters, IndexPriority[j]).None? {
      assert IndexPriority[j] in IndexPriority[..k];
    }
  }

  /** No filter is a plan unless one of the four string filters is given. */
  lemma NoStringFilterMeansScan(filters: UserFilters)
    requires forall g :: g in IndexPriority ==> Supplied(filters, g).None?
    ensures Plan(filters).index.None?
    ensures Plan(filters).request.Scan?
  {
    assert Supplied(filters, IndexPriority[0]).None?;
    assert Supplied(filters, IndexPriority[1]).None?;
    assert Supplied(filters, IndexPriority[2]).None?;
    assert Supplied(filters, IndexPriority[3]).None?;
  }


  /** The numeric indexes listed in `key_map` are never chosen, so a given
      hosted/attended bound always becomes a post-filter. */
  lemma NumericIndexesNeverChosen(filters: UserFilters, g: Field)
    requires g in [MinHosted, MaxHosted, MinAttended, MaxAttended]
    requires Supplied(filters, g).Some?
    ensures Plan(filters).index != Some("NumberOfEventsHostedIndex")
    ensures Plan(filters).index != Some("NumberOfEventsAttendedIndex")
    ensures Pred(KeyMap(g).key, KeyMap(g).op, Supplied(filters, g).value) in Plan(filters).postFilters
  {
    var chosen := ChooseIndex(filters);
    var p := Pred(KeyMap(g).key, KeyMap(g).op, Supplied(filters, g).value);
    assert PostFilter(filters, chosen, g) == [p];
  }

  /** Every post-filter comes from a given field whose attribute is not the
      chosen key, with that field's comparison and value. */
  lemma PostFiltersComeFromFields(filters: UserFilters, p: Pred)
    requires p in Plan(filters).postFilters
    ensures exists g ::
      && Supplied(filters, g).Some?
      && Some(g) != ChooseIndex(filters)
      && p == Pred(KeyMap(g).key, KeyMap(g).op, Supplied(filters, g).value)
    ensures Plan(filters).keyCondition.Some? ==> p.attr != Plan(filters).keyCondition.value.attr
  {
    var c := ChooseIndex(filters);
    var g: Field;
    if p in PostFilter(filters, c, JobTitle) { g := JobTitle; }
    else if p in PostFilter(filters, c, City) { g := City; }
    else if p in PostFilter(filters, c, State) { g := State; }
    else if p in PostFilter(filters, c, Company) { g := Company; }
    else if p in PostFilter(filters, c, MinHosted) { g := MinHosted; }
    else if p in PostFilter(filters, c, MaxHosted) { g := MaxHosted; }
    else if p in PostFilter(filters, c, MinAttended) { g := MinAttended; }
    else { g := MaxAttended; }
    PostFilterFrom(filters, c, g, p);
  }

  lemma PostFilterFrom(filters: UserFilters, c: Option<Field>, g: Field, p: Pred)
    requires p in PostFilter(filters, c, g)
    ensures Supplied(filters, g).Some? && Some(g) != c
    ensures p == Pred(KeyMap(g).key, KeyMap(g).op, Supplied(filters, g).value)
    ensures c.Some? ==> p.attr != KeyMap(c.value).key
  {
  }

  /** Each field contributes one post-filter when given, except the chosen
      field, which contributes none. */
  lemma PostFilterSize(filters: UserFilters, chosen: Option<Field>, f: Field)
    requires chosen.Some? ==> chosen.value in IndexPriority
    ensures |PostFilter(filters, chosen, f)| ==
      if Supplied(filters, f).Some? && chosen != Some(f) then 1 else 0
  {
  }

  function Given(filters: UserFilters, f: Field): nat
  {
    if Supplied(filters, f).Some? then 1 else 0
  }

  /** The number of truthy arguments. */
  function SuppliedCount(filters: UserFilters): nat
  {
    Given(filters, JobTitle) + Given(filters, City) + Given(filters, State) + Given(filters, Company)
    + Given(filters, MinHosted) + Given(filters, MaxHosted) + Given(filters, MinAttended) + Given(filters, MaxAttended)
  }

  /** The post-filters number the truthy arguments, less the one that
      became the key condition. */
  lemma PostFilterCount(filters: UserFilters)
    ensures |Plan(filters).postFilters| ==
      SuppliedCount(filters) - (if Plan(filters).index.Some? then 1 else 0)
  {
    var c := ChooseIndex(filters);
    PostFilterSize(filters, c, JobTitle);
    PostFilterSize(filters, c, City);
    PostFilterSize(filters, c, State);
    PostFilterSize(filters, c, Company);
    PostFilterSize(filters, c, MinHosted);
    PostFilterSize(filters, c, MaxHosted);
    PostFilterSize(filters, c, MinAttended);
    PostFilterSize(filters, c, MaxAttended);
  }

  // ---------------------------------------------------------------------
  // Meaning of the plan

  /** The filter the caller asked for, stated directly on a stored user:
      each given string filter is an exact match, each given minimum or
      maximum bounds the counter. */
  predicate Satisfies(filters: UserFilters, item: Item)
  {
    && (TruthyStr(filters.company).Some? ==> Get(item, "company", Null) == Str(filters.company.value))
    && (TruthyStr(filters.jobTitle).Some? ==> Get(item, "jobTitle", Null) == Str(filters.jobTitle.value))
    && (TruthyStr(filters.city).Some? ==> Get(item, "city", Null) == Str(filters.city.value))
    && (TruthyStr(filters.state).Some? ==> Get(item, "state", Null) == Str(filters.state.value))
    && (TruthyNum(filters.minHosted).Some? ==> AtLeast(item, HostedAttr, filters.minHosted.value))
    && (TruthyNum(filters.maxHosted).Some? ==> AtMost(item, HostedAttr, filters.maxHosted.value))
    && (TruthyNum(filters.minAttended).Some? ==> AtLeast(item, AttendedAttr, filters.minAttended.value))
    && (TruthyNum(filters.maxAttended).Some? ==> AtMost(item, AttendedAttr, filters.maxAttended.value))
  }

  predicate AtLeast(item: Item, attr: string, n: int)
  {
    attr in item && item[attr].Num? && item[attr].n >= n
  }

  predicate AtMost(item: Item, attr: string, n: int)
  {
    attr in item && item[attr].Num? && item[attr].n <= n
  }

  /** What one field's filter demands of an item, wherever it is checked. */
  predicate FieldHolds(filters: UserFilters, f: Field, item: Item)
  {
    Supplied(filters, f).None? || Holds(Pred(KeyMap(f).key, KeyMap(f).op, Supplied(filters, f).value), item)
  }

  lemma PostFilterMeaning(filters: UserFilters, chosen: Option<Field>, f: Field, item: Item)
    requires chosen.Some? ==> chosen.value in IndexPriority && FieldHolds(filters, chosen.value, item)
    ensures AllHold(PostFilter(filters, chosen, f), item) <==> FieldHolds(filters, f, item)
  {
    match Supplied(filters, f)
    case None =>
    case Some(v) =>
      var p := Pred(KeyMap(f).key, KeyMap(f).op, v);
      if chosen.Some? && KeyMap(chosen.value).key == KeyMap(f).key {
        assert chosen.value == f;
      } else {
        assert PostFilter(filters, chosen, f) == [p];
        assert AllHold([p], item) <==> Holds(p, item) by {
          assert [p][0] == p;
        }
      }
  }

  predicate AllFieldsHold(filters: UserFilters, item: Item)
  {
    && FieldHolds(filters, JobTitle, item) && FieldHolds(filters, City, item)
    && FieldHolds(filters, State, item) && FieldHolds(filters, Company, item)
    && FieldHolds(filters, MinHosted, item) && FieldHolds(filters, MaxHosted, item)
    && FieldHolds(filters, MinAttended, item) && FieldHolds(filters, MaxAttended, item)
  }

  lemma SatisfiesIsAllFields(filters: UserFilters, item: Item)
    ensures Satisfies(filters, item) <==> AllFieldsHold(filters, item)
  {
    StrFieldHolds(filters, Company, filters.company, item);
    StrFieldHolds(filters, JobTitle, filters.jobTitle, item);
    StrFieldHolds(filters, City, filters.city, item);
    StrFieldHolds(filters, State, filters.state, item);
    MinFieldHolds(filters, MinHosted, filters.minHosted, item);
    MaxFieldHolds(filters, MaxHosted, filters.maxHosted, item);
    MinFieldHolds(filters, MinAttended, filters.minAttended, item);
    MaxFieldHolds(filters, MaxAttended, filters.maxAttended, item);
  }

  /** A minimum holds when the counter is a number at least that large. */
  lemma MinFieldHolds(filters: UserFilters, f: Field, arg: Option<int>, item: Item)
    requires f in [MinHosted, MinAttended] && Supplied(filters, f) == TruthyNum(arg)
    ensures FieldHolds(filters, f, item) <==>
              (TruthyNum(arg).Some? ==> AtLeast(item, KeyMap(f).key, arg.value))
  {
  }

  /** A maximum holds when the counter is a number at most that large. */
  lemma MaxFieldHolds(filters: UserFilters, f: Field, arg: Option<int>, item: Item)
    requires f in [MaxHosted, MaxAttended] && Supplied(filters, f) == TruthyNum(arg)
    ensures FieldHolds(filters, f, item) <==>
              (TruthyNum(arg).Some? ==> AtMost(item, KeyMap(f).key, arg.value))
  {
  }

  /** A string filter holds when the attribute equals the given value. */
  lemma StrFieldHolds(filters: UserFilters, f: Field, arg: Option<string>, item: Item)
    requires f in IndexPriority && Supplied(filters, f) == TruthyStr(arg)
    ensures FieldHolds(filters, f, item) <==>
              (TruthyStr(arg).Some? ==> Get(item, KeyMap(f).key, Null) == Str(arg.value))
  {
  }

  lemma PostFiltersMeaning(filters: UserFilters, c: Option<Field>, item: Item)
    requires c.Some? ==> c.value in IndexPriority && FieldHolds(filters, c.value, item)
    ensures AllHold(PostFilters(filters, c), item) <==> AllFieldsHold(filters, item)
  {
    var a0, a1, a2, a3 := PostFilter(filters, c, JobTitle), PostFilter(filters, c, City), PostFilter(filters, c, State), PostFilter(filters, c, Company);
    var a4, a5, a6, a7 := PostFilter(filters, c, MinHosted), PostFilter(filters, c, MaxHosted), PostFilter(filters, c, MinAttended), PostFilter(filters, c, MaxAttended);
    AllHoldConcat(a0 + a1 + a2 + a3 + a4 + a5 + a6, a7, item);
    AllHoldConcat(a0 + a1 + a2 + a3 + a4 + a5, a6, item);
    AllHoldConcat(a0 + a1 + a2 + a3 + a4, a5, item);
    AllHoldConcat(a0 + a1 + a2 + a3, a4, item);
    AllHoldConcat(a0 + a1 + a2, a3, item);
    AllHoldConcat(a0 + a1, a2, item);
    AllHoldConcat(a0, a1, item);
    PostFilterMeaning(filters, c, JobTitle, item);
    PostFilterMeaning(filters, c, City, item);
    PostFilterMeaning(filters, c, State, item);
    PostFilterMeaning(filters, c, Company, item);
    PostFilterMeaning(filters, c, MinHosted, item);
    PostFilterMeaning(filters, c, MaxHosted, item);
    PostFilterMeaning(filters, c, MinAttended, item);
    PostFilterMeaning(filters, c, MaxAttended, item);
  }

  /** The plan admits exactly the users that satisfy the requested filter:
      key condition and post-filters together say no more and no less than
      the eight arguments. */
  lemma PlanSound(filters: UserFilters, item: Item)
    ensures Selects(Plan(filters).request, item) <==> Satisfies(filters, item)
  {
    var c := ChooseIndex(filters);
    var p := Plan(filters);
    FilterOfMeansAll(p.postFilters, item);
    SatisfiesIsAllFields(filters, item);
    var keyOk := c.None? || FieldHolds(filters, c.value, item);
    assert Selects(p.request, item) <==> keyOk && AllHold(p.postFilters, item);
    if keyOk {
      PostFiltersMeaning(filters, c, item);
    } else {
      assert c.value in PostFilterOrder;
    }
  }

  // ---------------------------------------------------------------------
  // Falsy values

  function StrOrNone(o: Option<string>): Option<string>
  {
    if o.Some? && o.value != "" then o else None
  }

  function NumOrNone(o: Option<int>): Option<int>
  {
    if o.Some? && o.value != 0 then o else None
  }

  /** Every falsy argument replaced by None. */
  function Normalize(filters: UserFilters): UserFilters
  {
    UserFilters(
      StrOrNone(filters.company), StrOrNone(filters.jobTitle), StrOrNone(filters.city), StrOrNone(filters.state),
      NumOrNone(filters.minHosted), NumOrNone(filters.maxHosted), NumOrNone(filters.minAttended), NumOrNone(filters.maxAttended))
  }

  /** A falsy argument (None, "" or 0) adds no predicate: the plan equals the
      plan with those arguments omitted, so a minimum of 0 is the same as no
      minimum. */
  lemma FalsyIsAbsent(filters: UserFilters)
    ensures Plan(Normalize(filters)) == Plan(filters)
  {
    var n := Normalize(filters);
    assert forall f :: Supplied(n, f) == Supplied(filters, f);
    var c := ChooseIndex(filters);
    assert ChooseIndex(n) == c;
    assert PostFilters(n, c) == PostFilters(filters, c);
  }

  // ---------------------------------------------------------------------
  // Dispatch in the route handlers

  /** The `any([...])` test over the eight arguments. */
  predicate AnySupplied(filters: UserFilters)
  {
    SuppliedCount(filters) > 0
  }

  /** The request a route handler issues: a full scan when no filter is
      truthy, the planner's request otherwise. */
  function UserSource(filters: UserFilters): (req: Request)
  {
    if !AnySupplied(filters) then FullScan else Plan(filters).request
  }

  /** The dispatch is redundant: with no truthy filter the planner itself
      issues the same full scan, so the handlers always send the planner's
      request. */
  lemma DispatchMatchesPlanner(filters: UserFilters)
    ensures UserSource(filters) == Plan(filters).request
    ensures !AnySupplied(filters) ==> UserSource(filters) == FullScan
  {
    if !AnySupplied(filters) {
      assert PostFilters(filters, None) == [];
    }
  }
}
