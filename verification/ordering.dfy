/** Sorting of stored records as `items.sort(key=lambda x: x.get(field, ""),
    reverse=desc)` does it: by the value of one attribute, a missing
    attribute counting as the empty string, ascending or descending.
    Python raises TypeError as soon as it compares two keys it cannot
    order; since a comparison sort must compare every pair of neighbours in
    its output, that happens exactly when there are two or more records
    and their keys are not all strings or all numbers. */
module Ordering {
  import opened Values

  /** `x.get(field, "")`. */
  function SortKey(item: Item, field: string): Value
  {
    Get(item, field, Str(""))
  }

  /** Python's `<=` on two keys of the same orderable kind. */
  predicate KeyLe(a: Value, b: Value)
  {
    || (a.Str? && b.Str? && StrLe(a.s, b.s))
    || (a.Num? && b.Num? && a.n <= b.n)
  }

  predicate AllStrKeys(items: seq<Item>, field: string)
  {
    forall i :: 0 <= i < |items| ==> SortKey(items[i], field).Str?
  }

  predicate AllNumKeys(items: seq<Item>, field: string)
  {
    forall i :: 0 <= i < |items| ==> SortKey(items[i], field).Num?
  }

  /** Whether the sort finishes without a TypeError. */
  predicate Sortable(items: seq<Item>, field: string)
  {
    |items| < 2 || AllStrKeys(items, field) || AllNumKeys(items, field)
  }

  /** `a` may come before `b` in the sorted output. */
  predicate InOrder(a: Item, b: Item, field: string, desc: bool)
  {
    if desc then KeyLe(SortKey(b, field), SortKey(a, field))
    else KeyLe(SortKey(a, field), SortKey(b, field))
  }

  predicate SortedBy(items: seq<Item>, field: string, desc: bool)
  {
    forall i, j :: 0 <= i < j < |items| ==> InOrder(items[i], items[j], field, desc)
  }

  predicate SameKind(a: Value, b: Value)
  {
    (a.Str? && b.Str?) || (a.Num? && b.Num?)
  }

  lemma InOrderTotal(a: Item, b: Item, field: string, desc: bool)
    requires SameKind(SortKey(a, field), SortKey(b, field))
    ensures InOrder(a, b, field, desc) || InOrder(b, a, field, desc)
  {
    var ka, kb := SortKey(a, field), SortKey(b, field);
    if ka.Str? {
      StrLeTotal(ka.s, kb.s);
    }
  }

  lemma InOrderTransitive(a: Item, b: Item, c: Item, field: string, desc: bool)
    requires InOrder(a, b, field, desc) && InOrder(b, c, field, desc)
    ensures InOrder(a, c, field, desc)
  {
    var ka, kb, kc := SortKey(a, field), SortKey(b, field), SortKey(c, field);
    if ka.Str? {
      if desc {
        StrLeTransitive(kc.s, kb.s, ka.s);
      } else {
        StrLeTransitive(ka.s, kb.s, kc.s);
      }
    }
  }

  /** All keys are of one orderable kind, the same as `k`'s. */
  predicate KeysLike(items: seq<Item>, field: string, k: Value)
  {
    forall i :: 0 <= i < |items| ==> SameKind(SortKey(items[i], field), k)
  }

  /** Insert `x` before the first element it may precede: earlier records
      stay ahead of later ones with an equal key, as in Python's stable
      sort (also under `reverse=True`). */
  function Insert(x: Item, ys: seq<Item>, field: string, desc: bool): seq<Item>
  {
    if ys == [] then [x]
    else if InOrder(x, ys[0], field, desc) then [x] + ys
    else [ys[0]] + Insert(x, ys[1..], field, desc)
  }

  lemma {:induction false} InsertPermutes(x: Item, ys: seq<Item>, field: string, desc: bool)
    ensures multiset(Insert(x, ys, field, desc)) == multiset(ys) + multiset{x}
  {
    if ys != [] && !InOrder(x, ys[0], field, desc) {
      InsertPermutes(x, ys[1..], field, desc);
      assert ys == [ys[0]] + ys[1..];
    }
  }

  /** Every element of `ys` may follow `a`. */
  predicate AllAfter(a: Item, ys: seq<Item>, field: string, desc: bool)
  {
    forall j :: 0 <= j < |ys| ==> InOrder(a, ys[j], field, desc)
  }

  lemma SortedHeadPrecedesAll(a: Item, ys: seq<Item>, field: string, desc: bool)
    requires SortedBy([a] + ys, field, desc)
    ensures AllAfter(a, ys, field, desc)
  {
    var r := [a] + ys;
    forall j | 0 <= j < |ys| ensures InOrder(a, ys[j], field, desc) {
      assert r[0] == a && r[j + 1] == ys[j];
      assert InOrder(r[0], r[j + 1], field, desc);
    }
  }

  lemma PrependSorted(a: Item, ys: seq<Item>, field: string, desc: bool)
    requires SortedBy(ys, field, desc) && AllAfter(a, ys, field, desc)
    ensures SortedBy([a] + ys, field, desc)
  {
    var r := [a] + ys;
    forall i, j | 0 <= i < j < |r| ensures InOrder(r[i], r[j], field, desc) {
      if i > 0 {
        assert r[i] == ys[i - 1] && r[j] == ys[j - 1];
      } else {
        assert r[j] == ys[j - 1];
      }
    }
  }

  lemma AllAfterPermutation(a: Item, ys: seq<Item>, zs: seq<Item>, field: string, desc: bool)
    requires AllAfter(a, ys, field, desc)
    requires multiset(zs) <= multiset(ys)
    ensures AllAfter(a, zs, field, desc)
  {
    forall j | 0 <= j < |zs| ensures InOrder(a, zs[j], field, desc) {
      assert zs[j] in multiset(ys);
      var m :| 0 <= m < |ys| && ys[m] == zs[j];
    }
  }

  lemma {:induction false} InsertSorted(x: Item, ys: seq<Item>, field: string, desc: bool)
    requires KeysLike(ys, field, SortKey(x, field))
    requires SortedBy(ys, field, desc)
    ensures SortedBy(Insert(x, ys, field, desc), field, desc)
  {
    if ys == [] {
    } else if InOrder(x, ys[0], field, desc) {
      SortedHeadPrecedesAll(ys[0], ys[1..], field, desc);
      forall j | 0 <= j < |ys| ensures InOrder(x, ys[j], field, desc) {
        if j > 0 {
          assert ys[j] == ys[1..][j - 1];
          InOrderTransitive(x, ys[0], ys[j], field, desc);
        }
      }
      PrependSorted(x, ys, field, desc);
    } else {
      assert ys == [ys[0]] + ys[1..];
      var tail := ys[1..];
      assert SortedBy(tail, field, desc) by {
        forall i, j | 0 <= i < j < |tail| ensures InOrder(tail[i], tail[j], field, desc) {
          assert tail[i] == ys[i + 1] && tail[j] == ys[j + 1];
        }
      }
      assert KeysLike(tail, field, SortKey(x, field)) by {
        forall i | 0 <= i < |tail| ensures SameKind(SortKey(tail[i], field), SortKey(x, field)) {
          assert tail[i] == ys[i + 1];
        }
      }
      InsertSorted(x, tail, field, desc);
      InOrderTotal(x, ys[0], field, desc);
      SortedHeadPrecedesAll(ys[0], tail, field, desc);
      var rest := Insert(x, tail, field, desc);
      InsertPermutes(x, tail, field, desc);
      assert AllAfter(ys[0], tail + [x], field, desc) by {
        forall j | 0 <= j < |tail + [x]| ensures InOrder(ys[0], (tail + [x])[j], field, desc) {
          if j < |tail| {
            assert (tail + [x])[j] == tail[j];
          }
        }
      }
      assert multiset(tail + [x]) == multiset(tail) + multiset{x};
      AllAfterPermutation(ys[0], tail + [x], rest, field, desc);
      PrependSorted(ys[0], rest, field, desc);
    }
  }

  /** The stable insertion sort of the records by `field`. */
  function SortItems(items: seq<Item>, field: string, desc: bool): (r: seq<Item>)
    requires Sortable(items, field)
    ensures multiset(r) == multiset(items)
    ensures |r| == |items|
    ensures SortedBy(r, field, desc)
  {
    if |items| < 2 then items
    else
      var x := items[0];
      var rest := items[1..];
      assert items == [x] + rest;
      assert Sortable(rest, field) by {
        assert forall i :: 0 <= i < |rest| ==> rest[i] == items[i + 1];
      }
      var sortedRest := SortItems(rest, field, desc);
      SortedKeysLike(x, items, sortedRest, field);
      InsertPermutes(x, sortedRest, field, desc);
      InsertSorted(x, sortedRest, field, desc);
      assert |multiset(Insert(x, sortedRest, field, desc))| == |multiset(items)|;
      Insert(x, sortedRest, field, desc)
  }

  /** Each record of the sorted output is one of the input records. */
  lemma SortedElementFrom(items: seq<Item>, field: string, desc: bool, k: nat)
    requires Sortable(items, field) && k < |items|
    ensures SortItems(items, field, desc)[k] in items
  {
    var r := SortItems(items, field, desc);
    assert r[k] in multiset(r);
  }

  lemma SortedKeysLike(x: Item, items: seq<Item>, ys: seq<Item>, field: string)
    requires |items| >= 2 && x == items[0] && Sortable(items, field)
    requires multiset(ys) == multiset(items[1..])
    ensures KeysLike(ys, field, SortKey(x, field))
  {
    forall i | 0 <= i < |ys| ensures SameKind(SortKey(ys[i], field), SortKey(x, field)) {
      assert ys[i] in multiset(items[1..]);
      var m :| 0 <= m < |items[1..]| && items[1..][m] == ys[i];
      assert items[m + 1] == ys[i];
    }
  }

  /** Records with no sort attribute count as the empty string, which no
      string key precedes: ascending they come first, descending last. */
  lemma MissingKeysSortLast(items: seq<Item>, field: string, i: nat)
    requires Sortable(items, field) && AllStrKeys(items, field)
    requires i < |items| && field !in SortItems(items, field, true)[i]
    ensures forall j :: i < j < |items| ==> SortKey(SortItems(items, field, true)[j], field) == Str("")
  {
    var r := SortItems(items, field, true);
    forall j | i < j < |items| ensures SortKey(r[j], field) == Str("") {
      assert InOrder(r[i], r[j], field, true);
      assert r[j] in multiset(items);
      var m :| 0 <= m < |items| && items[m] == r[j];
      assert SortKey(r[j], field).Str?;
      StrLeAntisymmetric(SortKey(r[j], field).s, "");
    }
  }

  /** Sorting by an attribute no record has leaves the records in their
      original order, in either direction: every key is `""` and the sort
      is stable. */
  lemma {:induction false} SortByAbsentKeepsOrder(items: seq<Item>, field: string, desc: bool)
    requires forall i :: 0 <= i < |items| ==> field !in items[i]
    ensures Sortable(items, field)
    ensures SortItems(items, field, desc) == items
  {
    assert AllStrKeys(items, field);
    if |items| >= 2 {
      var rest := items[1..];
      assert forall i :: 0 <= i < |rest| ==> rest[i] == items[i + 1];
      SortByAbsentKeepsOrder(rest, field, desc);
      assert SortKey(items[0], field) == Str("") && SortKey(rest[0], field) == Str("");
      assert InOrder(items[0], rest[0], field, desc);
      assert items == [items[0]] + rest;
    }
  }
}
