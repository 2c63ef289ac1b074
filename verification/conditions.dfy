/** Store-side conditions and requests: the `Key(..)`/`Attr(..)` comparisons
    the planners build, their `&` combinations, and the query or scan request
    that carries them. The meaning of a condition on one stored item is
    modelled so that a plan can be compared with the filter it implements;
    what a query or scan returns from a table is not. */
module Conditions {
  import opened Values

  datatype Comparator = Eq | Gte | Lte

  /** One comparison `Attr(attr).op(operand)` (or `Key(attr).op(operand)`). */
  datatype Pred = Pred(attr: string, op: Comparator, operand: Value)

  /** A condition tree, as built by `&` on comparisons. */
  datatype Cond = Atom(pred: Pred) | And(left: Cond, right: Cond)

  /** Comparison of a stored value with an operand. Range comparisons hold
      only between two numbers or two strings. */
  predicate Compares(op: Comparator, actual: Value, operand: Value)
  {
    match op
    case Eq => actual == operand
    case Gte =>
      || (actual.Num? && operand.Num? && actual.n >= operand.n)
      || (actual.Str? && operand.Str? && StrLe(operand.s, actual.s))
    case Lte =>
      || (actual.Num? && operand.Num? && actual.n <= operand.n)
      || (actual.Str? && operand.Str? && StrLe(actual.s, operand.s))
  }

  /** A comparison on an attribute the item lacks is false. */
  predicate Holds(p: Pred, item: Item)
  {
    p.attr in item && Compares(p.op, item[p.attr], p.operand)
  }

  predicate AllHold(ps: seq<Pred>, item: Item)
  {
    forall i :: 0 <= i < |ps| ==> Holds(ps[i], item)
  }

  lemma AllHoldConcat(a: seq<Pred>, b: seq<Pred>, item: Item)
    ensures AllHold(a + b, item) <==> AllHold(a, item) && AllHold(b, item)
  {
    if AllHold(a, item) && AllHold(b, item) {
      forall i | 0 <= i < |a + b|
        ensures Holds((a + b)[i], item)
      {
        if i >= |a| {
          assert (a + b)[i] == b[i - |a|];
        }
      }
    }
    if AllHold(a + b, item) {
      forall i | 0 <= i < |a|
        ensures Holds(a[i], item)
      {
        assert (a + b)[i] == a[i];
      }
      forall i | 0 <= i < |b|
        ensures Holds(b[i], item)
      {
        assert (a + b)[|a| + i] == b[i];
      }
    }
  }

  predicate Eval(c: Cond, item: Item)
  {
    match c
    case Atom(p) => Holds(p, item)
    case And(l, r) => Eval(l, item) && Eval(r, item)
  }

  /** The comparisons of a condition tree, left to right. */
  function Leaves(c: Cond): seq<Pred>
  {
    match c
    case Atom(p) => [p]
    case And(l, r) => Leaves(l) + Leaves(r)
  }

  lemma {:induction false} EvalAllLeaves(c: Cond, item: Item)
    ensures Eval(c, item) <==> AllHold(Leaves(c), item)
  {
    match c
    case Atom(p) =>
      assert Leaves(c)[0] == p;
    case And(l, r) =>
      EvalAllLeaves(l, item);
      EvalAllLeaves(r, item);
      AllHoldConcat(Leaves(l), Leaves(r), item);
  }

  /** `reduce(operator.and_, ps)`, which is also what the loop
      `e = ps[0]; for c in ps[1:]: e = e & c` computes: a left-nested
      conjunction. */
  function Conjoin(ps: seq<Pred>): (c: Cond)
    requires |ps| > 0
    ensures Leaves(c) == ps
  {
    if |ps| == 1 then Atom(ps[0])
    else And(Conjoin(ps[..|ps| - 1]), Atom(ps[|ps| - 1]))
  }

  lemma ConjoinMeansAll(ps: seq<Pred>, item: Item)
    requires |ps| > 0
    ensures Eval(Conjoin(ps), item) <==> AllHold(ps, item)
  {
    EvalAllLeaves(Conjoin(ps), item);
  }

  /** The optional `FilterExpression`: present exactly when there is
      something to filter on. */
  function FilterOf(ps: seq<Pred>): (f: Option<Cond>)
    ensures f.Some? <==> ps != []
    ensures f.Some? ==> Leaves(f.value) == ps
  {
    if ps == [] then None else Some(Conjoin(ps))
  }

  predicate Admits(f: Option<Cond>, item: Item)
  {
    f.None? || Eval(f.value, item)
  }

  lemma FilterOfMeansAll(ps: seq<Pred>, item: Item)
    ensures Admits(FilterOf(ps), item) <==> AllHold(ps, item)
  {
    if ps != [] {
      ConjoinMeansAll(ps, item);
    }
  }

  /** A request to the store: a query on a secondary index with a key
      condition, or a scan; both with an optional post-filter, the scan with
      an optional `Limit`. */
  datatype Request =
    | Query(index: string, keyCondition: Cond, filter: Option<Cond>)
    | Scan(filter: Option<Cond>, limit: Option<int>)

  /** The full-table scan `table.scan()` with no parameters. */
  const FullScan: Request := Scan(None, None)

  /** Whether the request's conditions admit the item. */
  predicate Selects(req: Request, item: Item)
  {
    match req
    case Query(_, k, f) => Eval(k, item) && Admits(f, item)
    case Scan(f, _) => Admits(f, item)
  }

  /** The store's answer to each request; what it contains is not modelled. */
  type Answers = Request -> Result<seq<Item>, StoreFailure>
}
