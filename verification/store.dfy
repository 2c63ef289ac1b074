/** The document-store wrapper's writes and keyed reads, on a table modelled
    as a map from partition-key value to record: the conditional put that
    creates a record, the keyed get, and the update that renders a dict as a
    `SET #k=:k, ...` expression with placeholder maps and applies it with
    the store's upsert semantics. Every failure of a create or update
    surfaces as 400; a failing get is left to the caller. */
module Store {
  import opened Values

  /** A table: the name of its partition key and its records by key value. */
  datatype Table = Table(keyName: string, rows: map<string, Item>)

  /** Every record carries its own key value under the key attribute. */
  predicate WellFormed(t: Table)
  {
    forall k :: k in t.rows ==> t.keyName in t.rows[k] && t.rows[k][t.keyName] == Str(k)
  }

  /** Values the client's serializer accepts: a datetime object is not one. */
  predicate Storable(v: Value)
  {
    && !v.Time?
    && (v.List? ==> forall i :: 0 <= i < |v.elems| ==> Storable(v.elems[i]))
  }

  predicate StorableItem(item: Item)
  {
    forall k :: k in item ==> Storable(item[k])
  }

  /** The partition-key value of a record: a non-empty string. */
  function KeyOf(t: Table, data: Item): Option<string>
  {
    if t.keyName in data && data[t.keyName].Str? && data[t.keyName].s != "" then Some(data[t.keyName].s)
    else None
  }

  /** `put_item` under `attribute_not_exists(id)`: the write goes through
      unless the record it would replace has an `id` attribute. A record
      without a usable key, a value that cannot be serialized and a failed
      condition all end in 400. */
  function CreateObject(t: Table, data: Item): (r: Result<Table, Failure>)
    ensures r.Err? ==> r.error == BadRequest
    ensures r.Ok? ==> KeyOf(t, data).Some? && StorableItem(data)
    ensures r.Ok? ==> r.value.keyName == t.keyName
    ensures r.Ok? ==> var k := KeyOf(t, data).value;
                      && r.value.rows.Keys == t.rows.Keys + {k}
                      && r.value.rows[k] == data
                      && forall k' :: k' in t.rows && k' != k ==> r.value.rows[k'] == t.rows[k']
  {
    var key := KeyOf(t, data);
    if key.None? || !StorableItem(data) then Err(BadRequest)
    else if key.value in t.rows && "id" in t.rows[key.value] then Err(BadRequest)
    else Ok(t.(rows := t.rows[key.value := data]))
  }

  /** On a table keyed by `id`, creating never replaces a record: it fails
      exactly when the key is taken (or the record is unusable). */
  lemma CreateNeverOverwrites(t: Table, data: Item)
    requires WellFormed(t) && t.keyName == "id"
    requires KeyOf(t, data).Some? && StorableItem(data)
    ensures CreateObject(t, data).Err? <==> KeyOf(t, data).value in t.rows
  {
  }

  lemma CreatePreservesWellFormed(t: Table, data: Item)
    requires WellFormed(t)
    requires CreateObject(t, data).Ok?
    ensures WellFormed(CreateObject(t, data).value)
  {
  }

  /** `get_item(Key={key_name: key}).get('Item')`. The store rejects a key
      name other than the table's and an empty key value. */
  function GetObject(t: Table, keyName: string, key: string): (r: Result<Option<Item>, StoreFailure>)
    ensures r.Err? <==> keyName != t.keyName || key == ""
    ensures r.Ok? ==> (r.value.Some? <==> key in t.rows)
    ensures r.Ok? && r.value.Some? ==> r.value.value == t.rows[key]
  {
    if keyName != t.keyName || key == "" then Err(StoreFailure("ValidationException"))
    else if key in t.rows then Ok(Some(t.rows[key]))
    else Ok(None)
  }

  /** What was created can be read back under its key. */
  lemma CreateThenGet(t: Table, data: Item)
    requires CreateObject(t, data).Ok?
    ensures GetObject(CreateObject(t, data).value, t.keyName, KeyOf(t, data).value) == Ok(Some(data))
  {
  }

  // ----- update expressions -----

  /** One `#k=:k` assignment: a name placeholder and a value placeholder. */
  datatype SetClause = SetClause(name: string, value: string)

  /** `UpdateExpression` with `ExpressionAttributeNames` and
      `ExpressionAttributeValues`. */
  datatype UpdateRequest = UpdateRequest(
    clauses: seq<SetClause>,
    names: map<string, string>,
    values: map<string, Value>)

  function NamePlaceholder(k: string): string { "#" + k }

  function ValuePlaceholder(k: string): string { ":" + k }

  lemma PlaceholdersInjective(a: string, b: string)
    ensures NamePlaceholder(a) == NamePlaceholder(b) ==> a == b
    ensures ValuePlaceholder(a) == ValuePlaceholder(b) ==> a == b
  {
    assert NamePlaceholder(a)[1..] == a && NamePlaceholder(b)[1..] == b;
    assert ValuePlaceholder(a)[1..] == a && ValuePlaceholder(b)[1..] == b;
  }

  /** The loop over `update_data.items()`: one clause per key in order, the
      names map `#k -> k`, the values map `:k -> v`. */
  function BuildUpdate(data: seq<Entry>): (u: UpdateRequest)
    requires DistinctKeys(data)
    ensures |u.clauses| == |data|
    ensures forall i :: 0 <= i < |data| ==>
              u.clauses[i] == SetClause(NamePlaceholder(data[i].key), ValuePlaceholder(data[i].key))
    ensures forall i :: 0 <= i < |data| ==>
              NamePlaceholder(data[i].key) in u.names && u.names[NamePlaceholder(data[i].key)] == data[i].key
    ensures forall i :: 0 <= i < |data| ==>
              ValuePlaceholder(data[i].key) in u.values && u.values[ValuePlaceholder(data[i].key)] == data[i].value
  {
    if data == [] then UpdateRequest([], map[], map[])
    else
      var init := data[..|data| - 1];
      var e := data[|data| - 1];
      assert DistinctKeys(init);
      var u := BuildUpdate(init);
      var n, v := NamePlaceholder(e.key), ValuePlaceholder(e.key);
      forall i | 0 <= i < |init| ensures NamePlaceholder(init[i].key) != n && ValuePlaceholder(init[i].key) != v {
        assert init[i].key != e.key;
        PlaceholdersInjective(init[i].key, e.key);
      }
      UpdateRequest(u.clauses + [SetClause(n, v)], u.names[n := e.key], u.values[v := e.value])
  }

  function ClauseText(c: SetClause): string
  {
    c.name + "=" + c.value
  }

  function Join(parts: seq<string>, sep: string): string
  {
    if parts == [] then ""
    else if |parts| == 1 then parts[0]
    else Join(parts[..|parts| - 1], sep) + sep + parts[|parts| - 1]
  }

  function ClauseTexts(cs: seq<SetClause>): (ts: seq<string>)
    ensures |ts| == |cs|
    ensures forall i :: 0 <= i < |cs| ==> ts[i] == ClauseText(cs[i])
  {
    if cs == [] then [] else [ClauseText(cs[0])] + ClauseTexts(cs[1..])
  }

  /** `"SET " + ", ".join(update_parts)`. */
  function Expression(u: UpdateRequest): string
  {
    "SET " + Join(ClauseTexts(u.clauses), ", ")
  }

  /** For one attribute the expression is `SET #k=:k`. */
  lemma SingleAttributeExpression(k: string, v: Value)
    ensures Expression(BuildUpdate([Entry(k, v)])) == "SET #" + k + "=:" + k
  {
    var u := BuildUpdate([Entry(k, v)]);
    assert u.clauses == [SetClause("#" + k, ":" + k)];
    var text := ("#" + k) + "=" + (":" + k);
    assert ClauseTexts(u.clauses) == [text];
    assert text == "#" + k + "=:" + k;
  }

  /** The `#k=:k` text one attribute contributes. */
  function Assignment(k: string): string
  {
    "#" + k + "=:" + k
  }

  /** For any dict the expression is `SET ` followed by one `#k=:k` per key,
      in the dict's order, separated by `, `. */
  lemma DictExpression(data: seq<Entry>)
    requires DistinctKeys(data)
    ensures var ks := KeysOf(data);
            Expression(BuildUpdate(data)) == "SET " + Join(seq(|ks|, i requires 0 <= i < |ks| => Assignment(ks[i])), ", ")
  {
    var ks := KeysOf(data);
    var texts := ClauseTexts(BuildUpdate(data).clauses);
    forall i | 0 <= i < |ks| ensures texts[i] == Assignment(ks[i]) {
      assert texts[i] == ("#" + ks[i]) + "=" + (":" + ks[i]);
    }
    assert texts == seq(|ks|, i requires 0 <= i < |ks| => Assignment(ks[i]));
  }

  /** The store's reading of the clauses on a record: each clause sets the
      attribute its name placeholder stands for to the value its value
      placeholder stands for; an undefined placeholder is an error. */
  function Interpret(cs: seq<SetClause>, names: map<string, string>, values: map<string, Value>, item: Item): Option<Item>
  {
    if cs == [] then Some(item)
    else if cs[0].name !in names || cs[0].value !in values then None
    else Interpret(cs[1..], names, values, item[names[cs[0].name] := values[cs[0].value]])
  }

  /** The item with every entry of the dict written over it, first to last. */
  function Overwrite(item: Item, data: seq<Entry>): (r: Item)
    requires DistinctKeys(data)
    ensures forall k :: k in r <==> k in item || k in KeysOf(data)
    ensures forall i :: 0 <= i < |data| ==> data[i].key in r && r[data[i].key] == data[i].value
    ensures forall k :: k in item && k !in KeysOf(data) ==> r[k] == item[k]
    decreases |data|
  {
    if data == [] then item
    else
      var tail := data[1..];
      assert forall i :: 0 <= i < |tail| ==> tail[i] == data[i + 1];
      assert KeysOf(data) == [data[0].key] + KeysOf(tail);
      assert data[0].key !in KeysOf(tail) by {
        forall i | 0 <= i < |tail| ensures KeysOf(tail)[i] != data[0].key {
          assert data[i + 1].key != data[0].key;
        }
      }
      Overwrite(item[data[0].key := data[0].value], tail)
  }

  lemma {:induction false} InterpretResolved(data: seq<Entry>, names: map<string, string>,
                                            values: map<string, Value>, item: Item)
    requires DistinctKeys(data)
    requires forall i :: 0 <= i < |data| ==>
               && NamePlaceholder(data[i].key) in names && names[NamePlaceholder(data[i].key)] == data[i].key
               && ValuePlaceholder(data[i].key) in values && values[ValuePlaceholder(data[i].key)] == data[i].value
    ensures Interpret(ClausesFor(data), names, values, item) == Some(Overwrite(item, data))
  {
    if data != [] {
      var tail := data[1..];
      assert forall i :: 0 <= i < |tail| ==> tail[i] == data[i + 1];
      assert ClausesFor(data)[1..] == ClausesFor(tail);
      InterpretResolved(tail, names, values, item[data[0].key := data[0].value]);
    }
  }

  /** The clauses of a dict, front to back. */
  function ClausesFor(data: seq<Entry>): (cs: seq<SetClause>)
    ensures |cs| == |data|
    ensures forall i :: 0 <= i < |data| ==>
              cs[i] == SetClause(NamePlaceholder(data[i].key), ValuePlaceholder(data[i].key))
  {
    if data == [] then []
    else [SetClause(NamePlaceholder(data[0].key), ValuePlaceholder(data[0].key))] + ClausesFor(data[1..])
  }

  /** The built request means exactly "write these attributes". */
  lemma BuildUpdateMeaning(data: seq<Entry>, item: Item)
    requires DistinctKeys(data)
    ensures Interpret(BuildUpdate(data).clauses, BuildUpdate(data).names, BuildUpdate(data).values, item)
            == Some(Overwrite(item, data))
  {
    var u := BuildUpdate(data);
    assert u.clauses == ClausesFor(data);
    InterpretResolved(data, u.names, u.values, item);
  }

  /** An attribute name the placeholders `#k`/`:k` accept: one or more
      letters, digits or underscores. */
  predicate PlaceholderSafe(k: string)
  {
    |k| >= 1 && forall i :: 0 <= i < |k| ==> NameChar(k[i])
  }

  predicate NameChar(c: char)
  {
    ('a' <= c <= 'z') || ('A' <= c <= 'Z') || ('0' <= c <= '9') || c == '_'
  }

  /** Whether the store accepts the update: the table is keyed by `id`, the
      key is non-empty, there is at least one attribute to set (an empty
      `SET` is a syntax error), the key attribute itself is not among them,
      every name fits a placeholder and every value can be serialized. */
  predicate UpdateAccepted(t: Table, id: string, data: seq<Entry>)
  {
    && t.keyName == "id" && id != "" && data != []
    && "id" !in KeysOf(data)
    && (forall i :: 0 <= i < |data| ==> PlaceholderSafe(data[i].key) && Storable(data[i].value))
  }

  /** The record an update starts from: the stored one, or, since the store
      upserts, a fresh record holding only the key. */
  function UpdateBase(t: Table, id: string): Item
  {
    if id in t.rows then t.rows[id] else map["id" := Str(id)]
  }

  /** `update_object`: the `SET` update with `ReturnValues="ALL_NEW"`,
      returning the table after the write and the whole new record; any
      failure is 400. */
  function UpdateObject(t: Table, id: string, data: seq<Entry>): (r: Result<(Table, Item), Failure>)
    requires DistinctKeys(data)
    ensures r.Err? <==> !UpdateAccepted(t, id, data)
    ensures r.Err? ==> r.error == BadRequest
    ensures r.Ok? ==> r.value.0 == t.(rows := t.rows[id := r.value.1])
    ensures r.Ok? ==> forall i :: 0 <= i < |data| ==> data[i].key in r.value.1 && r.value.1[data[i].key] == data[i].value
    ensures r.Ok? ==> forall k :: k in UpdateBase(t, id) && k !in KeysOf(data) ==> k in r.value.1 && r.value.1[k] == UpdateBase(t, id)[k]
    ensures r.Ok? ==> forall k :: k in r.value.1 <==> k in UpdateBase(t, id) || k in KeysOf(data)
  {
    if !UpdateAccepted(t, id, data) then Err(BadRequest)
    else
      var u := BuildUpdate(data);
      var base := UpdateBase(t, id);
      BuildUpdateMeaning(data, base);
      var item := Interpret(u.clauses, u.names, u.values, base).value;
      Ok((t.(rows := t.rows[id := item]), item))
  }

  /** The returned record is never empty, so a "not found" check on it can
      never fire. */
  lemma UpdateResultNonEmpty(t: Table, id: string, data: seq<Entry>)
    requires DistinctKeys(data)
    requires UpdateObject(t, id, data).Ok?
    ensures UpdateObject(t, id, data).value.1 != map[]
  {
    assert data[0].key in UpdateObject(t, id, data).value.1;
  }

  /** Updating a key with no record creates one: the key plus the data. */
  lemma UpdateUpserts(t: Table, id: string, data: seq<Entry>)
    requires DistinctKeys(data)
    requires UpdateObject(t, id, data).Ok?
    requires id !in t.rows
    ensures id in UpdateObject(t, id, data).value.0.rows
    ensures UpdateObject(t, id, data).value.1 == Overwrite(map["id" := Str(id)], data)
  {
    BuildUpdateMeaning(data, map["id" := Str(id)]);
  }

  lemma UpdatePreservesWellFormed(t: Table, id: string, data: seq<Entry>)
    requires DistinctKeys(data) && WellFormed(t)
    requires UpdateObject(t, id, data).Ok?
    ensures "id" in UpdateObject(t, id, data).value.1
    ensures UpdateObject(t, id, data).value.1["id"] == Str(id)
    ensures WellFormed(UpdateObject(t, id, data).value.0)
  {
  }
}
