/**
 `merge` of shantytown/config_source.py: layered settings, recursively and per key, and the
 record of which layer each setting came from.
 */
module ConfigSource {
  import opened Basics

  datatype Value = Leaf(value: int) | Table(entries: map<string, Value>)

  type Path = seq<string>

  // ---------- settings by path ----------

  /** The setting at a path; tables themselves are not settings. */
  function Lookup(v: Value, path: Path): Option<int>
    decreases path
  {
    match v
    case Leaf(n) => if path == [] then Some(n) else None
    case Table(entries) =>
      if path == [] || path[0] !in entries then None else Lookup(entries[path[0]], path[1..])
  }

  /** The layer says something at this path, or has a setting on the way to it. */
  predicate Covers(v: Value, path: Path)
    decreases path
  {
    path == [] || v.Leaf? || (path[0] in v.entries && Covers(v.entries[path[0]], path[1..]))
  }

  // ---------- merging ----------

  /** The table under a key, or an empty one. */
  function Under(base: map<string, Value>, key: string): map<string, Value> {
    if key in base && base[key].Table? then base[key].entries else map[]
  }

  /** What one key becomes when a layer sets it. */
  function Over(base: map<string, Value>, key: string, value: Value): Value
    decreases value, 1
  {
    if value.Leaf? then value else Table(Merged(Under(base, key), value))
  }

  /** One layer over another. */
  function Merged(base: map<string, Value>, over: Value): map<string, Value>
    requires over.Table?
    decreases over, 0
  {
    map key | key in base.Keys + over.entries.Keys ::
      if key in over.entries then Over(base, key, over.entries[key]) else base[key]
  }

  /** A setting of the result is the override's wherever the override says anything on its path,
      and otherwise the base's. */
  lemma {:induction false} MergedLookup(base: map<string, Value>, over: Value, path: Path)
    requires over.Table?
    ensures Lookup(Table(Merged(base, over)), path)
      == if Covers(over, path) then Lookup(over, path) else Lookup(Table(base), path)
    decreases path
  {
    if path != [] && path[0] in over.entries {
      var value := over.entries[path[0]];
      if value.Table? {
        MergedLookup(Under(base, path[0]), value, path[1..]);
      }
    }
  }

  /** Merging the same layer again changes nothing. */
  lemma {:induction false} MergedAgain(base: map<string, Value>, over: Value)
    requires over.Table?
    ensures Merged(Merged(base, over), over) == Merged(base, over)
    decreases over
  {
    hide Merged, Over;
    var once := Merged(base, over);
    MergedKeys(base, over);
    MergedKeys(once, over);
    forall key | key in once ensures Merged(once, over)[key] == once[key] {
      if key in over.entries && over.entries[key].Table? {
        MergedAgain(Under(base, key), over.entries[key]);
      }
    }
    assert Merged(once, over) == once;
  }

  lemma MergedKeys(base: map<string, Value>, over: Value)
    requires over.Table?
    ensures Merged(base, over).Keys == base.Keys + over.entries.Keys
    ensures forall key | key in base.Keys - over.entries.Keys :: Merged(base, over)[key] == base[key]
    ensures forall key | key in over.entries ::
      Merged(base, over)[key] == if over.entries[key].Leaf? then over.entries[key]
                                 else Table(Merged(Under(base, key), over.entries[key]))
  {
  }

  // ---------- origins ----------

  function Dotted(prefix: string, key: string): string {
    if prefix != "" then prefix + "." + key else key
  }

  function TextOf(prefix: string, path: Path): string
    decreases path
  {
    if path == [] then prefix else TextOf(Dotted(prefix, path[0]), path[1..])
  }

  /** Merging a layer writes the origin under this text. */
  ghost predicate Writes(over: Value, prefix: string, text: string)
    decreases over, 1
  {
    over.Table? && exists key | key in over.entries :: WritesAt(over.entries[key], Dotted(prefix, key), text)
  }

  ghost predicate WritesAt(value: Value, prefix: string, text: string)
    decreases value, 2
  {
    if value.Leaf? then text == prefix else Writes(value, prefix, text)
  }

  /** `after` is `before` with the layer's name written at each of its settings. */
  ghost predicate Written(before: map<string, string>, after: map<string, string>, source: string, over: Value,
                          prefix: string) {
    && (forall text :: text in after <==> text in before || Writes(over, prefix, text))
    && (forall text | text in after :: after[text] == if Writes(over, prefix, text) then source else before[text])
  }

  ghost predicate WritesSome(over: Value, done: set<string>, prefix: string, text: string) {
    over.Table?
    && exists key | key in over.entries && key in done :: WritesAt(over.entries[key], Dotted(prefix, key), text)
  }

  ghost predicate WrittenSome(before: map<string, string>, after: map<string, string>, source: string, over: Value,
                              done: set<string>, prefix: string) {
    && (forall text :: text in after <==> text in before || WritesSome(over, done, prefix, text))
    && (forall text | text in after ::
          after[text] == if WritesSome(over, done, prefix, text) then source else before[text])
  }

  ghost predicate PartlyMerged(base: map<string, Value>, over: Value, done: set<string>, result: map<string, Value>)
    requires over.Table? && done <= over.entries.Keys
  {
    result.Keys == base.Keys + done
    && forall key | key in result ::
      result[key] == if key in done then Over(base, key, over.entries[key]) else base[key]
  }

  class Origins {
    var of: map<string, string>

    constructor ()
      ensures of == map[]
    {
      of := map[];
    }

    /** `merge`: the merged table, and the layer's name written at each of its settings. */
    method Merge(base: map<string, Value>, over: Value, source: string, prefix: string)
        returns (result: map<string, Value>)
      requires over.Table?
      modifies this
      ensures result == Merged(base, over)
      ensures Written(old(of), of, source, over, prefix)
      decreases over
    {
      hide Writes, WritesAt, Merged, Over, Under, Written, WrittenSome, PartlyMerged, Dotted;
      result := base;
      var todo := over.entries.Keys;
      Begun(base, over, of, source, prefix);
      assert over.entries.Keys - todo == {};
      while todo != {}
        invariant todo <= over.entries.Keys
        invariant PartlyMerged(base, over, over.entries.Keys - todo, result)
        invariant WrittenSome(old(of), of, source, over, over.entries.Keys - todo, prefix)
        decreases todo
      {
        var key :| key in todo;
        var value := over.entries[key];
        var path := Dotted(prefix, key);
        ghost var done, before := over.entries.Keys - todo, of;
        UnderStill(base, over, done, result, key);
        PartlyStep(base, over, done, result, key);
        if value.Table? {
          var merged := Merge(Under(result, key), value, source, path);
          result := result[key := Table(merged)];
        } else {
          result := result[key := value];
          of := of[path := source];
        }
        WrittenStep(old(of), before, of, source, over, done, key, prefix);
        todo := todo - {key};
        assert over.entries.Keys - todo == done + {key};
      }
      assert over.entries.Keys - todo == over.entries.Keys;
      AllDone(base, over, result, old(of), of, source, prefix);
    }
  }

  lemma Begun(base: map<string, Value>, over: Value, of: map<string, string>, source: string, prefix: string)
    requires over.Table?
    ensures PartlyMerged(base, over, {}, base) && WrittenSome(of, of, source, over, {}, prefix)
  {
  }

  lemma UnderStill(base: map<string, Value>, over: Value, done: set<string>, result: map<string, Value>, key: string)
    requires over.Table? && done <= over.entries.Keys && PartlyMerged(base, over, done, result) && key !in done
    ensures Under(result, key) == Under(base, key)
  {
    hide Over;
  }

  lemma PartlyStep(base: map<string, Value>, over: Value, done: set<string>, result: map<string, Value>, key: string)
    requires over.Table? && done <= over.entries.Keys && PartlyMerged(base, over, done, result) && key in over.entries
    requires key !in done
    ensures over.entries[key].Leaf? ==> PartlyMerged(base, over, done + {key}, result[key := over.entries[key]])
    ensures over.entries[key].Table? ==>
      PartlyMerged(base, over, done + {key}, result[key := Table(Merged(Under(base, key), over.entries[key]))])
  {
    hide Merged;
  }

  lemma WrittenStep(before: map<string, string>, middle: map<string, string>, after: map<string, string>,
                    source: string,
                    over: Value, done: set<string>, key: string, prefix: string)
    requires over.Table? && key in over.entries && WrittenSome(before, middle, source, over, done, prefix)
    requires over.entries[key].Leaf? ==> after == middle[Dotted(prefix, key) := source]
    requires over.entries[key].Table? ==> Written(middle, after, source, over.entries[key], Dotted(prefix, key))
    ensures WrittenSome(before, after, source, over, done + {key}, prefix)
  {
    hide Writes, Dotted;
    forall text
      ensures WritesSome(over, done + {key}, prefix, text)
        == (WritesSome(over, done, prefix, text) || WritesAt(over.entries[key], Dotted(prefix, key), text))
    {
    }
  }

  lemma AllDone(base: map<string, Value>, over: Value, result: map<string, Value>, before: map<string, string>,
                after: map<string, string>,
                source: string, prefix: string)
    requires over.Table? && PartlyMerged(base, over, over.entries.Keys, result)
    requires WrittenSome(before, after, source, over, over.entries.Keys, prefix)
    ensures result == Merged(base, over) && Written(before, after, source, over, prefix)
  {
    hide Over, WritesAt;
    forall text ensures WritesSome(over, over.entries.Keys, prefix, text) <==> Writes(over, prefix, text) { }
  }

  // ---------- which texts a layer writes ----------

  predicate IsSetting(v: Value, prefix: string, path: Path, text: string) {
    Lookup(v, path).Some? && TextOf(prefix, path) == text
  }

  lemma {:induction false} WrittenPath(over: Value, prefix: string, text: string) returns (path: Path)
    requires Writes(over, prefix, text)
    ensures IsSetting(over, prefix, path, text)
    decreases over
  {
    hide Dotted;
    var key :| key in over.entries && WritesAt(over.entries[key], Dotted(prefix, key), text);
    var rest: Path := [];
    if over.entries[key].Table? {
      rest := WrittenPath(over.entries[key], Dotted(prefix, key), text);
    }
    path := [key] + rest;
    assert IsSetting(over.entries[key], Dotted(prefix, key), rest, text);
    assert path[0] == key && path[1..] == rest;
    assert Lookup(over, path) == Lookup(over.entries[key], rest);
    assert TextOf(prefix, path) == TextOf(Dotted(prefix, key), rest);
  }

  lemma {:induction false} SettingWrites(v: Value, prefix: string, path: Path)
    requires Lookup(v, path).Some?
    ensures WritesAt(v, prefix, TextOf(prefix, path))
    decreases path
  {
    hide Dotted;
    if path != [] {
      SettingWrites(v.entries[path[0]], Dotted(prefix, path[0]), path[1..]);
    }
  }

  /** A layer writes exactly the dotted paths of its settings. */
  lemma WritesSettings(over: Value, prefix: string, text: string)
    requires over.Table?
    ensures Writes(over, prefix, text) <==> exists path :: IsSetting(over, prefix, path, text)
  {
    if Writes(over, prefix, text) {
      var path := WrittenPath(over, prefix, text);
    }
    if exists path :: IsSetting(over, prefix, path, text) {
      var path: Path :| IsSetting(over, prefix, path, text);
      SettingWrites(over, prefix, path);
    }
  }

  // ---------- dotted paths are told apart ----------

  /** No key holds a dot. */
  ghost predicate NoDots(v: Value) {
    v.Table? ==> forall key | key in v.entries :: '.' !in key && NoDots(v.entries[key])
  }

  ghost predicate Undotted(path: Path) {
    forall i | 0 <= i < |path| :: '.' !in path[i]
  }

  lemma {:induction false} UndottedSetting(v: Value, path: Path)
    requires NoDots(v) && Lookup(v, path).Some?
    ensures Undotted(path)
    decreases path
  {
    if path != [] {
      UndottedSetting(v.entries[path[0]], path[1..]);
      forall i | 0 <= i < |path| ensures '.' !in path[i] { assert i > 0 ==> path[i] == path[1..][i - 1]; }
    }
  }

  function Tail(path: Path): string
    decreases path
  {
    if path == [] then "" else "." + path[0] + Tail(path[1..])
  }

  lemma {:induction false} TextIsTail(prefix: string, path: Path)
    requires prefix != ""
    ensures TextOf(prefix, path) == prefix + Tail(path)
    decreases path
  {
    if path != [] {
      TextIsTail(prefix + "." + path[0], path[1..]);
      assert (prefix + "." + path[0]) + Tail(path[1..]) == prefix + ("." + path[0] + Tail(path[1..]));
    } else {
      assert prefix + "" == prefix;
    }
  }

  lemma {:induction false} SameKey(a: string, p: Path, b: string, q: Path)
    requires '.' !in a && '.' !in b && a + Tail(p) == b + Tail(q)
    ensures a == b && Tail(p) == Tail(q)
  {
    var s := a + Tail(p);
    assert a == [] ==> s == Tail(p);
    assert b == [] ==> s == Tail(q);
    assert b != [] ==> s[0] == b[0] && b[0] in b;
    assert a != [] ==> s[0] == a[0] && a[0] in a;
    if a != [] && b != [] {
      assert s[0] == a[0] == b[0];
      assert s[1..] == a[1..] + Tail(p) == b[1..] + Tail(q);
      SameKey(a[1..], p, b[1..], q);
      assert a == [a[0]] + a[1..] && b == [b[0]] + b[1..];
    }
  }

  lemma {:induction false} SameTail(p: Path, q: Path)
    requires Undotted(p) && Undotted(q) && Tail(p) == Tail(q)
    ensures p == q
    decreases p
  {
    if p != [] && q != [] {
      assert Tail(p)[1..] == p[0] + Tail(p[1..]) && Tail(q)[1..] == q[0] + Tail(q[1..]);
      SameKey(p[0], p[1..], q[0], q[1..]);
      SameTail(p[1..], q[1..]);
      assert p == [p[0]] + p[1..] && q == [q[0]] + q[1..];
    }
  }

  /** Two paths of undotted keys with the same text are the same, unless an empty key comes first. */
  lemma SameText(p: Path, q: Path)
    requires Undotted(p) && Undotted(q) && p != [] && q != [] && p[0] != "" && q[0] != ""
    requires TextOf("", p) == TextOf("", q)
    ensures p == q
  {
    TextIsTail(p[0], p[1..]);
    TextIsTail(q[0], q[1..]);
    SameKey(p[0], p[1..], q[0], q[1..]);
    SameTail(p[1..], q[1..]);
    assert p == [p[0]] + p[1..] && q == [q[0]] + q[1..];
  }

  // ---------- the two layers of a projection ----------

  /** Keys that the dotted text of a path tells apart. */
  ghost predicate CleanKeys(v: Value) {
    v.Table? && NoDots(v) && "" !in v.entries
  }

  /** Every setting of the result is one layer's, local first, and its origin names that layer. */
  ghost predicate Traced(data: Value, of: map<string, string>, settings: Value, local: Value, graph: string) {
    forall path | Lookup(data, path).Some? :: TracedAt(data, of, settings, local, graph, path)
  }

  ghost predicate TracedAt(data: Value, of: map<string, string>, settings: Value, local: Value, graph: string,
                           path: Path) {
    && TextOf("", path) in of
    && (Lookup(local, path).Some? ==> Lookup(data, path) == Lookup(local, path) && of[TextOf("", path)] == "toml")
    && (Lookup(local, path).None? ==> Lookup(data, path) == Lookup(settings, path) && of[TextOf("", path)] == graph)
  }

  /** A setting of the graph that the local layer leaves alone, under a text the local layer writes. */
  ghost predicate Mistaken(settings: Value, local: Value, path: Path) {
    Lookup(settings, path).Some? && !Covers(local, path) && Writes(local, "", TextOf("", path))
  }

  /** `project`'s two merges: the graph's settings, then the local declarations over them. The
      origins are right exactly when no setting of the graph is mistaken for a local one. */
  method Layers(settings: Value, local: Value, graph: string) returns (data: Value, origins: Origins)
    requires settings.Table? && local.Table?
    ensures data == Table(Merged(Merged(map[], settings), local))
    ensures Traced(data, origins.of, settings, local, graph)
      <==> graph == "toml" || !exists path :: Mistaken(settings, local, path)
    ensures CleanKeys(settings) && CleanKeys(local) ==> Traced(data, origins.of, settings, local, graph)
  {
    hide Merged, Written, Mistaken, CleanKeys, Traced;
    origins := new Origins();
    var first := origins.Merge(map[], settings, graph, "");
    ghost var before := origins.of;
    var second := origins.Merge(first, local, "toml", "");
    data := Table(second);
    TracedExactly(settings, local, graph, map[], before, origins.of);
    if CleanKeys(settings) && CleanKeys(local) {
      CleanNotMistaken(settings, local);
    }
  }

  lemma TracedExactly(settings: Value, local: Value, graph: string,
                      none: map<string, string>, before: map<string, string>, after: map<string, string>)
    requires settings.Table? && local.Table? && none == map[]
    requires Written(none, before, graph, settings, "") && Written(before, after, "toml", local, "")
    ensures Traced(Table(Merged(Merged(map[], settings), local)), after, settings, local, graph)
      <==> graph == "toml" || !exists path :: Mistaken(settings, local, path)
  {
    hide Merged, Writes, TextOf, Written, Mistaken, TracedAt, Covers;
    var data := Table(Merged(Merged(map[], settings), local));
    if graph != "toml" && exists path :: Mistaken(settings, local, path) {
      var path :| Mistaken(settings, local, path);
      OriginAt(settings, local, graph, none, before, after, path);
      assert !TracedAt(data, after, settings, local, graph, path);
    } else {
      forall path | Lookup(data, path).Some? ensures TracedAt(data, after, settings, local, graph, path) {
        OriginAt(settings, local, graph, none, before, after, path);
      }
    }
  }

  lemma OriginAt(settings: Value, local: Value, graph: string,
                 none: map<string, string>, before: map<string, string>, after: map<string, string>, path: Path)
    requires settings.Table? && local.Table? && none == map[]
    requires Written(none, before, graph, settings, "") && Written(before, after, "toml", local, "")
    ensures var data := Table(Merged(Merged(map[], settings), local));
      && (Mistaken(settings, local, path) ==> Lookup(data, path).Some?)
      && (Lookup(data, path).Some? ==>
          TracedAt(data, after, settings, local, graph, path) == (graph == "toml" || !Mistaken(settings, local, path)))
  {
    hide Merged, Writes, TextOf;
    var text := TextOf("", path);
    MergedLookup(Merged(map[], settings), local, path);
    MergedLookup(map[], settings, path);
    WritesSettings(local, "", text);
    WritesSettings(settings, "", text);
    UncoveredSetting(local, path);
    UncoveredSetting(settings, path);
    assert IsSetting(local, "", path, text) <==> Lookup(local, path).Some?;
    assert IsSetting(settings, "", path, text) <==> Lookup(settings, path).Some?;
    assert Lookup(Table(map[]), path).None?;
  }

  lemma {:induction false} UncoveredSetting(v: Value, path: Path)
    ensures Lookup(v, path).Some? ==> Covers(v, path)
    decreases path
  {
    if path != [] && v.Table? && path[0] in v.entries { UncoveredSetting(v.entries[path[0]], path[1..]); }
  }

  lemma CleanNotMistaken(settings: Value, local: Value)
    requires CleanKeys(settings) && CleanKeys(local)
    ensures !exists path :: Mistaken(settings, local, path)
  {
    hide NoDots, Writes, TextOf;
    if path :| Mistaken(settings, local, path) {
      var other := WrittenPath(local, "", TextOf("", path));
      UndottedSetting(local, other);
      UndottedSetting(settings, path);
      UncoveredSetting(local, other);
      SameText(path, other);
      assert false;
    }
  }

  /** However the two layers were merged, a dotted key gives the graph's setting to the local layer. */
  lemma DottedKeyFails(graph: string, before: map<string, string>, after: map<string, string>)
    requires graph != "toml"
    requires Written(map[], before, graph, Table(map["a" := Table(map["b" := Leaf(1)])]), "")
    requires Written(before, after, "toml", Table(map["a.b" := Leaf(2)]), "")
    ensures var settings, local := Table(map["a" := Table(map["b" := Leaf(1)])]), Table(map["a.b" := Leaf(2)]);
      var data := Table(Merged(Merged(map[], settings), local));
      && Lookup(data, ["a", "b"]) == Some(1) && Lookup(local, ["a", "b"]) == None
      && "a.b" in after && after["a.b"] == "toml" && !Traced(data, after, settings, local, graph)
  {
    hide Merged, Traced;
    var settings, local := Table(map["a" := Table(map["b" := Leaf(1)])]), Table(map["a.b" := Leaf(2)]);
    assert ["a", "b"][1..] == ["b"] && ["b"][1..] == [];
    assert "a" + "." + "b" == "a.b";
    assert TextOf("", ["a", "b"]) == TextOf("a", ["b"]) == TextOf("a.b", []) == "a.b";
    assert WritesAt(local.entries["a.b"], Dotted("", "a.b"), "a.b");
    Fails(settings, local, graph, map[], before, after, ["a", "b"], 1);
  }

  /** So does an empty key at the top. */
  lemma EmptyKeyFails(graph: string, before: map<string, string>, after: map<string, string>)
    requires graph != "toml"
    requires Written(map[], before, graph, Table(map["" := Table(map["a" := Leaf(1)])]), "")
    requires Written(before, after, "toml", Table(map["a" := Leaf(2)]), "")
    ensures var settings, local := Table(map["" := Table(map["a" := Leaf(1)])]), Table(map["a" := Leaf(2)]);
      var data := Table(Merged(Merged(map[], settings), local));
      && Lookup(data, ["", "a"]) == Some(1) && Lookup(local, ["", "a"]) == None
      && "a" in after && after["a"] == "toml" && !Traced(data, after, settings, local, graph)
  {
    hide Merged, Traced;
    var settings, local := Table(map["" := Table(map["a" := Leaf(1)])]), Table(map["a" := Leaf(2)]);
    assert ["", "a"][1..] == ["a"] && ["a"][1..] == [];
    assert TextOf("", ["", "a"]) == TextOf("", ["a"]) == TextOf("a", []) == "a";
    assert WritesAt(local.entries["a"], Dotted("", "a"), "a");
    Fails(settings, local, graph, map[], before, after, ["", "a"], 1);
  }

  lemma Fails(settings: Value, local: Value, graph: string,
              none: map<string, string>, before: map<string, string>, after: map<string, string>, path: Path, n: int)
    requires settings.Table? && local.Table? && none == map[] && graph != "toml"
    requires Written(none, before, graph, settings, "") && Written(before, after, "toml", local, "")
    requires Lookup(settings, path) == Some(n) && !Covers(local, path) && Writes(local, "", TextOf("", path))
    ensures var data := Table(Merged(Merged(map[], settings), local));
      && Lookup(data, path) == Some(n) && Lookup(local, path) == None
      && TextOf("", path) in after && after[TextOf("", path)] == "toml"
      && !Traced(data, after, settings, local, graph)
  {
    hide Merged, Traced, Writes, TextOf;
    TracedExactly(settings, local, graph, none, before, after);
    MergedLookup(Merged(map[], settings), local, path);
    MergedLookup(map[], settings, path);
    UncoveredSetting(local, path);
    UncoveredSetting(settings, path);
    assert Mistaken(settings, local, path);
  }
}
