/** Shared vocabulary of the model: optional and fallible results, the HTTP
    failures a handler can end in, the attribute values that the document
    store and the Python layer exchange, Python dicts as ordered entry lists,
    and the code-point ordering Python and the store use on strings. */
module Values {

  datatype Option<+T> = None | Some(value: T)

  datatype Result<+T, +E> = Ok(value: T) | Err(error: E)

  /** The non-success outcomes of a request handler. */
  datatype Failure =
    | BadRequest     // 400, raised by the handlers and by the store wrapper
    | NotFound       // 404
    | Unprocessable  // 422, request validation by the web framework
    | ServerError    // 500, explicit or from an unhandled exception
  {
    function Code(): (c: nat)
      ensures 400 <= c < 600
    {
      match this
      case BadRequest => 400
      case NotFound => 404
      case Unprocessable => 422
      case ServerError => 500
    }
  }

  /** A failure of the document store itself (transport, throttling, a request it rejects). */
  datatype StoreFailure = StoreFailure(detail: string)

  /** An attribute value. `Time` is a datetime object not yet converted to
      text; `iso` is what its `isoformat()` returns. */
  datatype Value =
    | Str(s: string)
    | Num(n: int)
    | Null
    | Time(iso: string)
    | List(elems: seq<Value>)

  /** A stored record or a JSON object: attribute name to value. */
  type Item = map<string, Value>

  /** Python truthiness of a value. */
  predicate Truthy(v: Value)
  {
    match v
    case Str(s) => s != ""
    case Num(n) => n != 0
    case Null => false
    case Time(_) => true
    case List(xs) => xs != []
  }

  /** `item.get(key, default)`. */
  function Get(item: Item, key: string, default: Value): Value
  {
    if key in item then item[key] else default
  }

  /** One key/value pair of a Python dict. A dict is a sequence of entries
      with distinct keys, kept in insertion order. */
  datatype Entry = Entry(key: string, value: Value)

  predicate DistinctKeys(d: seq<Entry>)
  {
    forall i, j :: 0 <= i < j < |d| ==> d[i].key != d[j].key
  }

  /** The keys of a dict, in insertion order. */
  function KeysOf(d: seq<Entry>): (ks: seq<string>)
    ensures |ks| == |d|
    ensures forall i :: 0 <= i < |d| ==> ks[i] == d[i].key
  {
    if d == [] then [] else [d[0].key] + KeysOf(d[1..])
  }

  /** `d[k]` for a key that is present. */
  function Lookup(d: seq<Entry>, k: string): Value
    requires k in KeysOf(d)
  {
    if d[0].key == k then d[0].value else Lookup(d[1..], k)
  }

  lemma {:induction false} LookupFindsEntry(d: seq<Entry>, i: nat)
    requires DistinctKeys(d)
    requires i < |d|
    ensures d[i].key in KeysOf(d)
    ensures Lookup(d, d[i].key) == d[i].value
  {
    if i > 0 {
      assert d[1..][i - 1] == d[i];
      LookupFindsEntry(d[1..], i - 1);
    }
  }

  /** Lexicographic order on strings by code point: Python's `<=` on `str`,
      and the store's order on string attributes (UTF-8 preserves it). */
  predicate StrLe(a: string, b: string)
  {
    if a == [] then true
    else if b == [] then false
    else if a[0] != b[0] then a[0] < b[0]
    else StrLe(a[1..], b[1..])
  }

  lemma {:induction false} StrLeReflexive(a: string)
    ensures StrLe(a, a)
  {
    if a != [] {
      StrLeReflexive(a[1..]);
    }
  }

  lemma {:induction false} StrLeTotal(a: string, b: string)
    ensures StrLe(a, b) || StrLe(b, a)
  {
    if a != [] && b != [] && a[0] == b[0] {
      StrLeTotal(a[1..], b[1..]);
    }
  }

  lemma {:induction false} StrLeTransitive(a: string, b: string, c: string)
    requires StrLe(a, b) && StrLe(b, c)
    ensures StrLe(a, c)
  {
    if a != [] && b != [] && c != [] && a[0] == b[0] && b[0] == c[0] {
      StrLeTransitive(a[1..], b[1..], c[1..]);
    }
  }

  lemma {:induction false} StrLeAntisymmetric(a: string, b: string)
    requires StrLe(a, b) && StrLe(b, a)
    ensures a == b
  {
    if a != [] && b != [] {
      StrLeAntisymmetric(a[1..], b[1..]);
      assert a == [a[0]] + a[1..];
      assert b == [b[0]] + b[1..];
    }
  }
}
