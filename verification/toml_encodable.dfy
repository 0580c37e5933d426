/** Which dictionaries have a TOML form at all, by the shape of what stands in them. */
module TomlEncodable {
  import opened Basics
  import opened TomlWriter

  /** What stands at a place: one number a level, counting the items of a list or the entries of a table. */
  function At(v: Value, path: seq<nat>): Option<Value>
    decreases path
  {
    if path == [] then Some(v)
    else if v.List? && path[0] < |v.items| then At(v.items[path[0]], path[1..])
    else if v.Table? && path[0] < |v.rows| then At(v.rows[path[0]].value, path[1..])
    else None
  }

  predicate TableAt(v: Value, path: seq<nat>) {
    At(v, path).Some? && At(v, path).value.Table?
  }

  /** At this path stands a list that holds something other than tables, and somewhere below it a table. */
  predicate Misplaced(v: Value, path: seq<nat>, below: seq<nat>) {
    && At(v, path).Some? && At(v, path).value.List?
    && (exists i | 0 <= i < |At(v, path).value.items| :: !At(v, path).value.items[i].Table?)
    && TableAt(At(v, path).value, below)
  }

  lemma {:induction false} EncodableAt(rows: seq<Entry>)
    ensures Encodable(rows) <==> forall i | 0 <= i < |rows| :: EncodableValue(rows[i].value)
  {
    if rows != [] {
      EncodableAt(rows[1..]);
      assert forall i | 0 < i < |rows| :: rows[i] == rows[1..][i - 1];
      assert forall i | 0 <= i < |rows[1..]| :: rows[1..][i] == rows[i + 1];
    }
  }

  lemma {:induction false} EncodableItemsAt(items: seq<Value>)
    requires forall i | 0 <= i < |items| :: items[i].Table?
    ensures EncodableItems(items) <==> forall i | 0 <= i < |items| :: EncodableValue(items[i])
  {
    if items != [] {
      EncodableItemsAt(items[1..]);
      assert forall i | 0 < i < |items| :: items[i] == items[1..][i - 1];
      assert forall i | 0 <= i < |items[1..]| :: items[1..][i] == items[i + 1];
    }
  }

  lemma {:induction false} InlineAllAt(items: seq<Value>)
    ensures InlineAll(items) <==> forall i | 0 <= i < |items| :: Inline(items[i])
  {
    if items != [] {
      InlineAllAt(items[1..]);
      assert forall i | 0 < i < |items| :: items[i] == items[1..][i - 1];
      assert forall i | 0 <= i < |items[1..]| :: items[1..][i] == items[i + 1];
    }
  }

  // ---------- going down one level ----------

  lemma ItemAt(items: seq<Value>, i: nat, path: seq<nat>)
    requires i < |items|
    ensures At(List(items), [i] + path) == At(items[i], path)
  {
    assert ([i] + path)[1..] == path;
  }

  lemma RowAt(rows: seq<Entry>, i: nat, path: seq<nat>)
    requires i < |rows|
    ensures At(Table(rows), [i] + path) == At(rows[i].value, path)
  {
    assert ([i] + path)[1..] == path;
  }

  lemma Split(path: seq<nat>)
    requires path != []
    ensures [path[0]] + path[1..] == path
  {
  }

  lemma {:induction false} AtAppend(v: Value, path: seq<nat>, below: seq<nat>)
    requires At(v, path).Some?
    ensures At(v, path + below) == At(At(v, path).value, below)
    decreases path
  {
    if path == [] {
      assert path + below == below;
    } else {
      assert (path + below)[1..] == path[1..] + below;
      AtAppend(if v.List? then v.items[path[0]] else v.rows[path[0]].value, path[1..], below);
    }
  }

  // ---------- values on one line ----------

  /** A value goes on one line exactly when no table stands anywhere in it. */
  lemma {:induction false} InlineExactly(v: Value)
    ensures Inline(v) <==> !exists path :: TableAt(v, path)
    decreases v
  {
    match v
    case Table(_) => assert TableAt(v, []);
    case List(items) =>
      InlineAllAt(items);
      forall i | 0 <= i < |items| ensures Inline(items[i]) <==> !exists path :: TableAt(items[i], path) {
        InlineExactly(items[i]);
      }
      hide Inline, InlineAll;
      ListTables(items);
    case _ => forall path ensures !TableAt(v, path) { }
  }

  lemma ListTables(items: seq<Value>)
    ensures (exists path :: TableAt(List(items), path)) <==>
      exists i, path :: 0 <= i < |items| && TableAt(items[i], path)
  {
    if i, path :| 0 <= i < |items| && TableAt(items[i], path) {
      ItemAt(items, i, path);
      assert TableAt(List(items), [i] + path);
    }
    if path :| TableAt(List(items), path) {
      Split(path);
      ItemAt(items, path[0], path[1..]);
      assert TableAt(items[path[0]], path[1..]);
    }
  }

  // ---------- tables ----------

  /** A value has a TOML form exactly when no list in it mixes a table with anything else. */
  lemma {:induction false} ValueExactly(v: Value)
    ensures EncodableValue(v) <==> !exists path, below :: Misplaced(v, path, below)
    decreases v
  {
    hide At, Inline;
    if v.Table? {
      EncodableAt(v.rows);
      forall i | 0 <= i < |v.rows| ensures EncodableValue(v.rows[i].value) <==> Sane(v.rows[i].value) {
        ValueExactly(v.rows[i].value);
      }
      SaneTable(v.rows);
    } else if IsTables(v) {
      EncodableItemsAt(v.items);
      forall i | 0 <= i < |v.items| ensures EncodableValue(v.items[i]) <==> Sane(v.items[i]) {
        ValueExactly(v.items[i]);
      }
      SaneTables(v.items);
    } else {
      InlineExactly(v);
      SaneScalar(v);
    }
  }

  ghost predicate Sane(v: Value) {
    !exists path, below :: Misplaced(v, path, below)
  }

  lemma SaneTable(rows: seq<Entry>)
    ensures Sane(Table(rows)) <==> forall i | 0 <= i < |rows| :: Sane(rows[i].value)
  {
    forall i, path, below | 0 <= i < |rows| && Misplaced(rows[i].value, path, below)
      ensures Misplaced(Table(rows), [i] + path, below)
    {
      RowAt(rows, i, path);
    }
    forall path, below | Misplaced(Table(rows), path, below)
      ensures path != [] && path[0] < |rows| && Misplaced(rows[path[0]].value, path[1..], below)
    {
      Split(path);
      RowAt(rows, path[0], path[1..]);
    }
  }

  lemma SaneTables(items: seq<Value>)
    requires forall i | 0 <= i < |items| :: items[i].Table?
    ensures Sane(List(items)) <==> forall i | 0 <= i < |items| :: Sane(items[i])
  {
    forall i, path, below | 0 <= i < |items| && Misplaced(items[i], path, below)
      ensures Misplaced(List(items), [i] + path, below)
    {
      ItemAt(items, i, path);
    }
    forall path, below | Misplaced(List(items), path, below)
      ensures path != [] && path[0] < |items| && Misplaced(items[path[0]], path[1..], below)
    {
      Split(path);
      ItemAt(items, path[0], path[1..]);
    }
  }

  lemma SaneScalar(v: Value)
    requires IsScalar(v)
    ensures Sane(v) <==> !exists path :: TableAt(v, path)
  {
    forall path, below | Misplaced(v, path, below) ensures TableAt(v, path + below) { AtAppend(v, path, below); }
    if path :| TableAt(v, path) {
      assert v.List?;
      assert At(v, []) == Some(v);
      assert Misplaced(v, [], path);
    }
  }

  /** The dictionaries with a TOML form, at any length and depth. */
  lemma EncodableExactly(data: seq<Entry>)
    ensures Encodable(data) <==> !exists path, below :: Misplaced(Table(data), path, below)
  {
    ValueExactly(Table(data));
  }
}
