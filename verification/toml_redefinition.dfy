/** The reader refuses to define anything twice, as the sections "Keys", "Table" and "Array of Tables" of TOML
    v1.0.0 demand. */
module TomlRedefinition {
  import opened Basics
  import opened TomlReader

  /** The second of these may not follow the first at the same place. */
  predicate Clash(first: Op, second: Op) {
    match first
    case Define => second.Define? || second.Extend?
    case Extend => second.Define?
    case Put(k, _) => second.Put? && second.key == k
  }

  lemma {:induction false} AtTwice(n: Option<Node>, path: seq<string>, first: Op, second: Op)
    requires At(n, path, first).Some? && Clash(first, second)
    ensures At(At(n, path, first), path, second) == None
    decreases |path|
  {
    if path != [] {
      var k, rest := path[0], path[1..];
      match n
      case None => AtTwice(None, rest, first, second);
      case Some(Leaf(_)) =>
      case Some(Tab(m, e)) => AtTwice(Get(m, k), rest, first, second);
      case Some(Arr(es)) => AtTwice(Get(es[|es| - 1].m, k), rest, first, second);
    }
  }

  predicate IsHeader(e: Event, path: seq<string>) {
    (e.Header? || e.Append?) && e.path == path
  }

  /** A table header repeats neither as a table nor as an array of tables, an array of tables is not made a
      table again, and a key has one value. */
  lemma DefinedOnce(d: Doc, a: Event, b: Event)
    requires d.Doc? && Step(a, d).Doc?
    ensures a.Header? && IsHeader(b, a.path) ==> Step(b, Step(a, d)) == Bad
    ensures a.Append? && b == Header(a.path) ==> Step(b, Step(a, d)) == Bad
    ensures a.Pair? && b.Pair? && b.key == a.key ==> Step(b, Step(a, d)) == Bad
  {
    match a
    case Header(path) =>
      if b == Header(path) { AtTwice(d.node, path, Define, Define); }
      if b == Append(path) { AtTwice(d.node, path, Define, Extend); }
    case Append(path) =>
      if b == Header(path) { AtTwice(d.node, path, Extend, Define); }
    case Pair(k, v) =>
      if b.Pair? && b.key == k { AtTwice(d.node, d.current, Put(k, v), Put(k, b.v)); }
  }
}
