/**
 Reading what `dumps` wrote gives the dictionary back, as a map, exactly when no key
 is a bare key with a newline at its end; with such a key the text is not TOML at all.
 */
module TomlRoundTrip {
  import opened Basics
  import opened TomlWriter
  import opened TomlReader
  import opened TomlLines

  // ---------- what a dictionary means ----------

  function Image(v: Value): Plain
    decreases v, 1
  {
    if v.Table? then Dict(ImageRows(v.rows))
    else if IsTables(v) then Many(ImageItems(v.items))
    else Atom(v)
  }

  function ImageRows(rows: seq<Entry>): map<string, Plain>
    decreases rows
  {
    if rows == [] then map[] else ImageRows(rows[1..])[rows[0].key := Image(rows[0].value)]
  }

  function ImageItems(items: seq<Value>): seq<Plain>
    requires forall i | 0 <= i < |items| :: items[i].Table?
    decreases items
  {
    if items == [] then [] else [Dict(ImageRows(items[0].rows))] + ImageItems(items[1..])
  }

  /** No key at any depth is bare characters and a final newline. */
  predicate CleanRows(rows: seq<Entry>)
    decreases rows
  {
    rows == [] || (!TrickyKey(rows[0].key) && CleanValue(rows[0].value) && CleanRows(rows[1..]))
  }

  predicate CleanValue(v: Value)
    decreases v, 1
  {
    if v.Table? then CleanRows(v.rows)
    else if IsTables(v) then CleanItems(v.items)
    else true
  }

  predicate CleanItems(items: seq<Value>)
    requires forall i | 0 <= i < |items| :: items[i].Table?
    decreases items
  {
    items == [] || (CleanRows(items[0].rows) && CleanItems(items[1..]))
  }

  // ---------- the events of a table, with paths relative to it ----------

  function Shift(p: seq<string>, e: Event): Event {
    match e
    case Header(path) => Header(p + path)
    case Append(path) => Append(p + path)
    case Pair(_, _) => e
  }

  function Under(p: seq<string>, es: seq<Event>): seq<Event> {
    seq(|es|, i requires 0 <= i < |es| => Shift(p, es[i]))
  }

  function TableEvents(rows: seq<Entry>, header: bool): seq<Event>
    decreases rows, 2
  {
    (if header && WritesHeader(rows) then [Header([])] else []) +
    PairEvents(rows) + (ChildEvents(rows) + ArrayEvents(rows))
  }

  function PairEvents(rows: seq<Entry>): seq<Event> {
    if rows == [] then []
    else (if IsScalar(rows[0].value) then [Pair(rows[0].key, rows[0].value)] else []) + PairEvents(rows[1..])
  }

  function ChildEvents(rows: seq<Entry>): seq<Event>
    decreases rows, 1
  {
    if rows == [] then []
    else (if rows[0].value.Table? then Under([rows[0].key], TableEvents(rows[0].value.rows, true)) else []) +
         ChildEvents(rows[1..])
  }

  function ArrayEvents(rows: seq<Entry>): seq<Event>
    decreases rows, 1
  {
    if rows == [] then []
    else (if IsTables(rows[0].value) then Under([rows[0].key], ItemEvents(rows[0].value.items)) else []) +
         ArrayEvents(rows[1..])
  }

  function ItemEvents(items: seq<Value>): seq<Event>
    requires forall i | 0 <= i < |items| :: items[i].Table?
    decreases items
  {
    if items == [] then []
    else [Append([])] + TableEvents(items[0].rows, false) + ItemEvents(items[1..])
  }

  lemma UnderAppend(p: seq<string>, a: seq<Event>, b: seq<Event>)
    ensures Under(p, a + b) == Under(p, a) + Under(p, b)
  {
  }

  lemma UnderUnder(p: seq<string>, k: string, es: seq<Event>)
    ensures Under(p, Under([k], es)) == Under(p + [k], es)
  {
    forall i | 0 <= i < |es| ensures Under(p, Under([k], es))[i] == Under(p + [k], es)[i] {
      match es[i]
      case Header(path) => assert p + ([k] + path) == p + [k] + path;
      case Append(path) => assert p + ([k] + path) == p + [k] + path;
      case Pair(_, _) =>
    }
  }

  lemma UnderNothing(es: seq<Event>)
    ensures Under([], es) == es
  {
    forall i | 0 <= i < |es| ensures Under([], es)[i] == es[i] {
      match es[i]
      case Header(path) => assert [] + path == path;
      case Append(path) => assert [] + path == path;
      case Pair(_, _) =>
    }
  }

  // ---------- the lines of a table read as its events ----------

  lemma LexPieces(a: seq<string>, b: seq<string>, ea: seq<Event>, eb: seq<Event>)
    requires LexLines(a) == Some(ea) && LexLines(b) == Some(eb)
    ensures LexLines(a + b) == Some(ea + eb)
  {
    LexLinesAppend(a, b);
  }

  lemma LexBlank(a: seq<string>, b: seq<string>, ea: seq<Event>)
    requires LexLines(a) == Some(ea) && LexLines(b) == Some([])
    ensures LexLines(a + b) == Some(ea)
  {
    LexLinesAppend(a, b);
    assert ea + [] == ea;
  }

  lemma LexSingle(line: string, es: seq<Event>)
    requires '\n' !in line && LexLine(line) == Some(es)
    ensures LexLines([line]) == Some(es)
  {
    LexOneLine(line);
    assert es + [] == es;
    assert LexLines([line][1..]) == Some([]);
  }

  lemma BlankReads()
    ensures LexLines([""]) == Some([])
  {
    LexSingle("", []);
  }

  lemma HeaderReads(path: seq<string>)
    requires path != [] && Clean(path)
    ensures LexLines([HeaderLine(path)]) == Some([Header(path)])
    ensures LexLines([ArrayLine(path)]) == Some([Append(path)])
  {
    hide LexLine, LexLines, PathText;
    PathHasNoNewline(path);
    HeaderLineReads(path);
    ArrayLineReads(path);
    LexSingle(HeaderLine(path), [Header(path)]);
    LexSingle(ArrayLine(path), [Append(path)]);
  }

  lemma {:induction false} PairsRead(rows: seq<Entry>)
    requires Encodable(rows) && CleanRows(rows)
    ensures LexLines(ScalarLines(rows)) == Some(PairEvents(rows))
  {
    hide LexLines, PairLine;
    if rows == [] {
      LexNothing();
    } else {
      var e := rows[0];
      assert EncodableValue(e.value);
      PairsRead(rows[1..]);
      if IsScalar(e.value) {
        PairReads(e.key, e.value);
        LexPieces([PairLine(e.key, e.value)], ScalarLines(rows[1..]), [Pair(e.key, e.value)], PairEvents(rows[1..]));
      } else {
        assert ScalarLines(rows) == ScalarLines(rows[1..]);
        assert PairEvents(rows) == PairEvents(rows[1..]);
      }
    }
  }

  lemma LexNothing()
    ensures LexLines([]) == Some([])
  {
  }

  lemma PairReads(key: string, v: Value)
    requires Inline(v) && !TrickyKey(key)
    ensures LexLines([PairLine(key, v)]) == Some([Pair(key, v)])
  {
    hide LexLine, LexLines, KeyText, ValueText;
    PairLineReads(key, v);
    KeyHasNoNewline(key);
    ValueHasNoNewline(v);
    LexSingle(PairLine(key, v), [Pair(key, v)]);
  }

  lemma {:induction false} TableReads(rows: seq<Entry>, path: seq<string>, header: bool)
    requires Encodable(rows) && CleanRows(rows) && Clean(path)
    ensures LexLines(TableLines(rows, path, header)) == Some(Under(path, TableEvents(rows, header && path != [])))
    decreases rows, 2
  {
    hide LexLines, ScalarLines, PairEvents, ChildLines, ChildEvents, ArrayLines, ArrayEvents, HeaderLine;
    var h := header && path != [] && WritesHeader(rows);
    var head := if h then [HeaderLine(path)] else [];
    var headEvents: seq<Event> := if h then [Header([])] else [];
    LexNothing();
    BlankReads();
    if h { HeaderReads(path); }
    assert Under(path, headEvents) == if h then [Header(path)] else [] by {
      if h { assert path + [] == path; }
    }
    PairsRead(rows);
    ChildrenRead(rows, path);
    ArraysRead(rows, path);
    var blank := if HasScalar(rows) then [""] else [];
    LexPieces(head, ScalarLines(rows), Under(path, headEvents), PairEvents(rows));
    LexBlank(head + ScalarLines(rows), blank, Under(path, headEvents) + PairEvents(rows));
    LexPieces(ChildLines(rows, path), ArrayLines(rows, path), Under(path, ChildEvents(rows)),
              Under(path, ArrayEvents(rows)));
    LexPieces(head + ScalarLines(rows) + blank, ChildLines(rows, path) + ArrayLines(rows, path),
              Under(path, headEvents) + PairEvents(rows),
              Under(path, ChildEvents(rows)) + Under(path, ArrayEvents(rows)));
    TableSplit(rows, path, header);
    UnderTable(path, headEvents, rows);
  }

  lemma UnderTable(path: seq<string>, head: seq<Event>, rows: seq<Entry>)
    ensures Under(path, head + PairEvents(rows) + (ChildEvents(rows) + ArrayEvents(rows)))
         == Under(path, head) + PairEvents(rows) + (Under(path, ChildEvents(rows)) + Under(path, ArrayEvents(rows)))
  {
    hide Under, PairEvents, ChildEvents, ArrayEvents;
    PairsUnder(path, rows);
    UnderAppend(path, ChildEvents(rows), ArrayEvents(rows));
    UnderAppend(path, head, PairEvents(rows));
    UnderAppend(path, head + PairEvents(rows), ChildEvents(rows) + ArrayEvents(rows));
  }

  lemma {:induction false} PairsUnder(p: seq<string>, rows: seq<Entry>)
    ensures Under(p, PairEvents(rows)) == PairEvents(rows)
  {
    if rows != [] {
      PairsUnder(p, rows[1..]);
      var first := if IsScalar(rows[0].value) then [Pair(rows[0].key, rows[0].value)] else [];
      UnderAppend(p, first, PairEvents(rows[1..]));
      assert Under(p, first) == first;
    }
  }

  lemma {:induction false} ChildrenRead(rows: seq<Entry>, path: seq<string>)
    requires Encodable(rows) && CleanRows(rows) && Clean(path)
    ensures LexLines(ChildLines(rows, path)) == Some(Under(path, ChildEvents(rows)))
    decreases rows, 1
  {
    hide LexLines, TableLines, TableEvents;
    if rows == [] {
      LexNothing();
      assert Under(path, []) == [];
    } else {
      var e := rows[0];
      assert EncodableValue(e.value) && CleanValue(e.value);
      ChildrenRead(rows[1..], path);
      if e.value.Table? {
        TableReads(e.value.rows, path + [e.key], true);
        UnderUnder(path, e.key, TableEvents(e.value.rows, true));
        UnderAppend(path, Under([e.key], TableEvents(e.value.rows, true)), ChildEvents(rows[1..]));
        LexPieces(TableLines(e.value.rows, path + [e.key], true), ChildLines(rows[1..], path),
                  Under(path + [e.key], TableEvents(e.value.rows, true)), Under(path, ChildEvents(rows[1..])));
      } else {
        assert ChildLines(rows, path) == ChildLines(rows[1..], path);
        assert ChildEvents(rows) == ChildEvents(rows[1..]);
      }
    }
  }

  lemma {:induction false} ArraysRead(rows: seq<Entry>, path: seq<string>)
    requires Encodable(rows) && CleanRows(rows) && Clean(path)
    ensures LexLines(ArrayLines(rows, path)) == Some(Under(path, ArrayEvents(rows)))
    decreases rows, 1
  {
    hide LexLines, ItemLines, ItemEvents;
    if rows == [] {
      LexNothing();
      assert Under(path, []) == [];
    } else {
      var e := rows[0];
      assert EncodableValue(e.value) && CleanValue(e.value);
      ArraysRead(rows[1..], path);
      if IsTables(e.value) {
        ItemsLinesRead(e.value.items, path + [e.key]);
        UnderUnder(path, e.key, ItemEvents(e.value.items));
        UnderAppend(path, Under([e.key], ItemEvents(e.value.items)), ArrayEvents(rows[1..]));
        LexPieces(ItemLines(e.value.items, path + [e.key]), ArrayLines(rows[1..], path),
                  Under(path + [e.key], ItemEvents(e.value.items)), Under(path, ArrayEvents(rows[1..])));
      } else {
        assert ArrayLines(rows, path) == ArrayLines(rows[1..], path);
        assert ArrayEvents(rows) == ArrayEvents(rows[1..]);
      }
    }
  }

  lemma {:induction false} ItemsLinesRead(items: seq<Value>, path: seq<string>)
    requires forall i | 0 <= i < |items| :: items[i].Table?
    requires EncodableItems(items) && CleanItems(items) && Clean(path) && path != []
    ensures LexLines(ItemLines(items, path)) == Some(Under(path, ItemEvents(items)))
    decreases items
  {
    hide LexLines, TableLines, TableEvents, ArrayLine;
    if items == [] {
      LexNothing();
      assert Under(path, []) == [];
    } else {
      var body := TableEvents(items[0].rows, false);
      var lines := [ArrayLine(path)] + TableLines(items[0].rows, path, false);
      var blank := if lines[|lines| - 1] != "" then [""] else [];
      TableReads(items[0].rows, path, false);
      ItemsLinesRead(items[1..], path);
      HeaderReads(path);
      BlankReads();
      LexNothing();
      assert Under(path, [Append([])]) == [Append(path)] by { assert path + [] == path; }
      LexPieces([ArrayLine(path)], TableLines(items[0].rows, path, false), [Append(path)], Under(path, body));
      LexBlank(lines, blank, [Append(path)] + Under(path, body));
      LexPieces(lines + blank, ItemLines(items[1..], path), [Append(path)] + Under(path, body),
                Under(path, ItemEvents(items[1..])));
      UnderAppend(path, [Append([])], body);
      UnderAppend(path, [Append([])] + body, ItemEvents(items[1..]));
    }
  }

  // ---------- the events of a table build it ----------

  function NodeOf(v: Value): Node
    decreases v, 1
  {
    if v.Table? then Tab(RowsMap(v.rows), WritesHeader(v.rows))
    else if IsTables(v) then Arr(ItemNodes(v.items))
    else Leaf(v)
  }

  function ItemNodes(items: seq<Value>): seq<Node>
    requires forall i | 0 <= i < |items| :: items[i].Table?
    decreases items
  {
    if items == [] then [] else [Tab(RowsMap(items[0].rows), true)] + ItemNodes(items[1..])
  }

  datatype Kind = Scalar | Child | Array

  function KindOf(v: Value): Kind {
    if v.Table? then Child else if IsTables(v) then Array else Scalar
  }

  /** The entries of one kind, as the nodes the reader makes of them. */
  function Part(rows: seq<Entry>, kind: Kind): map<string, Node>
    decreases rows, 0
  {
    if rows == [] then map[]
    else if KindOf(rows[0].value) == kind then Part(rows[1..], kind)[rows[0].key := NodeOf(rows[0].value)]
    else Part(rows[1..], kind)
  }

  function RowsMap(rows: seq<Entry>): map<string, Node>
    decreases rows, 1
  {
    Part(rows, Scalar) + Part(rows, Child) + Part(rows, Array)
  }

  ghost predicate Absent(rows: seq<Entry>, m: map<string, Node>) {
    forall i | 0 <= i < |rows| :: rows[i].key !in m
  }

  lemma {:induction false} RunAppend(a: seq<Event>, b: seq<Event>, d: Doc)
    ensures Run(a + b, d) == Run(b, Run(a, d))
  {
    if d.Bad? {
    } else if a == [] {
      assert a + b == b;
    } else {
      assert (a + b)[1..] == a[1..] + b;
      RunAppend(a[1..], b, Step(a[0], d));
    }
  }

  lemma RunNothing(d: Doc)
    ensures Run([], d) == d
  {
  }

  lemma RunFirst(e: Event, es: seq<Event>, d: Doc)
    requires d.Doc?
    ensures Run([e] + es, d) == Run(es, Step(e, d))
  {
    assert ([e] + es)[1..] == es;
  }

  /** A run that starts with a header does not depend on the current table. */
  lemma FreshCurrent(es: seq<Event>, n: Option<Node>, c: seq<string>, c': seq<string>)
    requires es != [] && !es[0].Pair?
    ensures Run(es, Doc(n, c)) == Run(es, Doc(n, c'))
  {
  }

  function LiftTab(m: map<string, Node>, e: bool, k: string, d: Doc): Doc {
    if d.Bad? then Bad
    else Doc(Some(Tab(if d.node.None? then m else m[k := d.node.value], e)), [k] + d.current)
  }

  /** Events below a key change only that key's entry. */
  lemma {:induction false} RunBelow(k: string, es: seq<Event>, m: map<string, Node>, e: bool, c: seq<string>)
    ensures Run(Under([k], es), Doc(Some(Tab(m, e)), [k] + c)) == LiftTab(m, e, k, Run(es, Doc(Get(m, k), c)))
    ensures var d := Run(es, Doc(Get(m, k), c)); d.Doc? && (es != [] || k in m) ==> d.node.Some?
    decreases |es|
  {
    var d := Doc(Some(Tab(m, e)), [k] + c);
    if es == [] {
      if k in m { assert m[k := m[k]] == m; }
    } else {
      var inner := Step(es[0], Doc(Get(m, k), c));
      assert Under([k], es)[1..] == Under([k], es[1..]);
      StepBelow(k, es[0], m, e, c);
      if inner.Doc? {
        var m' := m[k := inner.node.value];
        RunBelow(k, es[1..], m', e, inner.current);
        var final := Run(es[1..], inner);
        if final.Doc? && final.node.Some? {
          assert m'[k := final.node.value] == m[k := final.node.value];
        }
      }
    }
  }

  lemma StepBelow(k: string, ev: Event, m: map<string, Node>, e: bool, c: seq<string>)
    ensures Step(Shift([k], ev), Doc(Some(Tab(m, e)), [k] + c)) == LiftTab(m, e, k, Step(ev, Doc(Get(m, k), c)))
    ensures var d := Step(ev, Doc(Get(m, k), c)); d.Doc? ==> d.node.Some?
  {
    match ev
    case Header(p) => assert ([k] + p)[0] == k && ([k] + p)[1..] == p;
    case Append(p) => assert ([k] + p)[0] == k && ([k] + p)[1..] == p;
    case Pair(_, _) => assert ([k] + c)[0] == k && ([k] + c)[1..] == c;
  }

  ghost predicate Deep(es: seq<Event>) {
    forall i | 0 <= i < |es| :: es[i].Pair? || es[i].path != []
  }

  function LiftArr(before: seq<Node>, d: Doc): Doc {
    if d.Bad? || d.node.None? then Bad else Doc(Some(Arr(before + [d.node.value])), d.current)
  }

  /** Below an array of tables, events go into its last element. */
  lemma {:induction false} RunInLast(es: seq<Event>, before: seq<Node>, m: map<string, Node>, e: bool, c: seq<string>)
    requires Deep(es)
    ensures Run(es, Doc(Some(Arr(before + [Tab(m, e)])), c)) == LiftArr(before, Run(es, Doc(Some(Tab(m, e)), c)))
    decreases |es|
  {
    if es != [] {
      assert forall i | 0 <= i < |es[1..]| :: es[1..][i] == es[i + 1];
      StepInLast(es[0], before, m, e, c);
      var inner := Step(es[0], Doc(Some(Tab(m, e)), c));
      if inner.Doc? {
        RunInLast(es[1..], before, inner.node.value.m, inner.node.value.explicit, inner.current);
      }
    }
  }

  lemma StepInLast(ev: Event, before: seq<Node>, m: map<string, Node>, e: bool, c: seq<string>)
    requires ev.Pair? || ev.path != []
    ensures Step(ev, Doc(Some(Arr(before + [Tab(m, e)])), c)) == LiftArr(before, Step(ev, Doc(Some(Tab(m, e)), c)))
    ensures var d := Step(ev, Doc(Some(Tab(m, e)), c)); d.Doc? ==> d.node.Some? && d.node.value.Tab?
  {
    var es := before + [Tab(m, e)];
    assert es[..|es| - 1] == before;
  }

  lemma {:induction false} DeepEvents(rows: seq<Entry>)
    ensures Deep(TableEvents(rows, false)) && Deep(ChildEvents(rows)) && Deep(ArrayEvents(rows))
    ensures Deep(PairEvents(rows))
  {
    if rows != [] {
      DeepEvents(rows[1..]);
    }
  }

  lemma MoveIn(m: map<string, Node>, k: string, n: Node, p: map<string, Node>)
    requires k !in p
    ensures m[k := n] + p == m + p[k := n]
  {
  }

  lemma {:induction false} PairsRun(rows: seq<Entry>, m: map<string, Node>, e: bool)
    requires Distinct(rows) && Absent(rows, m)
    ensures Run(PairEvents(rows), Doc(Some(Tab(m, e)), [])) == Doc(Some(Tab(m + Part(rows, Scalar), e)), [])
    decreases rows
  {
    if rows == [] {
      assert m + map[] == m;
    } else {
      var k, v := rows[0].key, rows[0].value;
      TailDistinct(rows);
      if IsScalar(v) {
        var m' := m[k := Leaf(v)];
        assert Step(Pair(k, v), Doc(Some(Tab(m, e)), [])) == Doc(Some(Tab(m', e)), []);
        assert PairEvents(rows)[1..] == PairEvents(rows[1..]);
        PairsRun(rows[1..], m', e);
        PartKeys(rows[1..], Scalar);
        MoveIn(m, k, Leaf(v), Part(rows[1..], Scalar));
      } else {
        assert PairEvents(rows) == PairEvents(rows[1..]);
        PairsRun(rows[1..], m, e);
      }
    }
  }

  lemma TailDistinct(rows: seq<Entry>)
    requires Distinct(rows) && rows != []
    ensures Distinct(rows[1..]) && forall i | 0 <= i < |rows[1..]| :: rows[1..][i].key != rows[0].key
    ensures DistinctValue(rows[0].value)
    ensures forall i | 0 <= i < |rows[1..]| :: rows[1..][i] == rows[i + 1]
  {
  }

  ghost predicate HasKind(rows: seq<Entry>, k: string, kind: Kind) {
    exists i | 0 <= i < |rows| :: rows[i].key == k && KindOf(rows[i].value) == kind
  }

  lemma {:induction false} PartKeys(rows: seq<Entry>, kind: Kind)
    ensures forall k | k in Part(rows, kind) :: HasKind(rows, k, kind)
  {
    if rows != [] {
      PartKeys(rows[1..], kind);
      forall k | k in Part(rows, kind) ensures HasKind(rows, k, kind) {
        if k in Part(rows[1..], kind) {
          var i :| 0 <= i < |rows[1..]| && rows[1..][i].key == k && KindOf(rows[1..][i].value) == kind;
          assert rows[i + 1].key == k;
        } else {
          assert rows[0].key == k;
        }
      }
    }
  }

  /** A table that is not there yet is built from its events. */
  lemma {:induction false} NewTableRun(rows: seq<Entry>, c: seq<string>)
    requires Distinct(rows)
    ensures var d := Run(TableEvents(rows, true), Doc(None, c)); d.Doc? && d.node == Some(NodeOf(Table(rows)))
    ensures TableEvents(rows, true) != [] && !TableEvents(rows, true)[0].Pair?
    decreases rows, 3
  {
    var es := TableEvents(rows, true);
    if WritesHeader(rows) {
      assert es[1..] == TableEvents(rows, false);
      assert es[0] == Header([]);
      assert Step(es[0], Doc(None, c)) == Doc(Some(Tab(map[], true)), []);
      TableRun(rows, true);
    } else {
      NoPairs(rows);
      SomeSubtable(rows);
      DeepEvents(rows);
      assert es == TableEvents(rows, false) == ChildEvents(rows) + ArrayEvents(rows);
      assert es[0].Header? || es[0].Append?;
      assert At(None, es[0].path, if es[0].Header? then Define else Extend)
          == At(Some(Tab(map[], false)), es[0].path, if es[0].Header? then Define else Extend);
      assert Run(es, Doc(None, c)) == Run(es, Doc(Some(Tab(map[], false)), c));
      FreshCurrent(es, Some(Tab(map[], false)), c, []);
      TableRun(rows, false);
    }
  }

  lemma {:induction false} NoPairs(rows: seq<Entry>)
    requires !HasScalar(rows)
    ensures PairEvents(rows) == []
  {
    if rows != [] {
      assert forall i | 0 <= i < |rows[1..]| :: rows[1..][i] == rows[i + 1];
      assert !IsScalar(rows[0].value);
      NoPairs(rows[1..]);
    }
  }

  /** Without scalars, some header comes first. */
  lemma {:induction false} SomeSubtable(rows: seq<Entry>)
    requires !HasScalar(rows) && rows != []
    ensures ChildEvents(rows) + ArrayEvents(rows) != []
    ensures !(ChildEvents(rows) + ArrayEvents(rows))[0].Pair?
    decreases rows
  {
    FirstHeader(rows);
    assert !IsScalar(rows[0].value);
    if rows[0].value.Table? {
      var child := rows[0].value.rows;
      if !WritesHeader(child) {
        SomeSubtable(child);
        NoPairs(child);
      }
      assert TableEvents(child, true) != [];
      assert ChildEvents(rows) != [];
    } else {
      assert ItemEvents(rows[0].value.items) != [];
      assert ArrayEvents(rows) != [];
    }
  }

  lemma {:induction false} FirstHeader(rows: seq<Entry>)
    ensures ChildEvents(rows) != [] ==> !ChildEvents(rows)[0].Pair?
    ensures ArrayEvents(rows) != [] ==> !ArrayEvents(rows)[0].Pair?
    decreases rows
  {
    if rows != [] {
      FirstHeader(rows[1..]);
      if rows[0].value.Table? {
        var child := rows[0].value.rows;
        FirstHeader(child);
        if !WritesHeader(child) { NoPairs(child); }
      }
    }
  }

  lemma {:induction false} TableRun(rows: seq<Entry>, e: bool)
    requires Distinct(rows)
    ensures var d := Run(TableEvents(rows, false), Doc(Some(Tab(map[], e)), []));
      d.Doc? && d.node == Some(Tab(RowsMap(rows), e))
    decreases rows, 2
  {
    hide Run, PairEvents, ChildEvents, ArrayEvents, Part;
    var start := Doc(Some(Tab(map[], e)), []);
    PairsRun(rows, map[], e);
    var m := map[] + Part(rows, Scalar);
    assert m == Part(rows, Scalar);
    PartsApart(rows);
    var d := ChildrenRun(rows, m, e, []);
    var d' := ArraysRun(rows, m + Part(rows, Child), e, d.current);
    assert TableEvents(rows, false) == PairEvents(rows) + (ChildEvents(rows) + ArrayEvents(rows));
    RunAppend(PairEvents(rows), ChildEvents(rows) + ArrayEvents(rows), start);
    RunAppend(ChildEvents(rows), ArrayEvents(rows), Doc(Some(Tab(m, e)), []));
  }

  ghost predicate Fresh(rows: seq<Entry>, kind: Kind, m: map<string, Node>) {
    forall i | 0 <= i < |rows| && KindOf(rows[i].value) == kind :: rows[i].key !in m
  }

  lemma PartsApart(rows: seq<Entry>)
    requires Distinct(rows)
    ensures Fresh(rows, Child, Part(rows, Scalar))
    ensures Fresh(rows, Array, Part(rows, Scalar) + Part(rows, Child))
  {
    PartKeys(rows, Scalar);
    PartKeys(rows, Child);
  }

  lemma {:induction false} ChildrenRun(rows: seq<Entry>, m: map<string, Node>, e: bool, c: seq<string>) returns (d: Doc)
    requires Distinct(rows) && Fresh(rows, Child, m)
    ensures d == Run(ChildEvents(rows), Doc(Some(Tab(m, e)), c))
    ensures d.Doc? && d.node == Some(Tab(m + Part(rows, Child), e))
    decreases rows, 1
  {
    hide TableEvents, NodeOf, At, Run;
    d := Run(ChildEvents(rows), Doc(Some(Tab(m, e)), c));
    if rows == [] {
      assert m + map[] == m;
      RunNothing(Doc(Some(Tab(m, e)), c));
    } else {
      var k, v := rows[0].key, rows[0].value;
      TailDistinct(rows);
      if v.Table? {
        var es := TableEvents(v.rows, true);
        NewTableRun(v.rows, []);
        FreshCurrent(Under([k], es), Some(Tab(m, e)), c, [k] + []);
        RunBelow(k, es, m, e, []);
        var m' := m[k := NodeOf(v)];
        var current := [k] + Run(es, Doc(None, [])).current;
        assert Run(Under([k], es), Doc(Some(Tab(m, e)), c)) == Doc(Some(Tab(m', e)), current);
        RunAppend(Under([k], es), ChildEvents(rows[1..]), Doc(Some(Tab(m, e)), c));
        d := ChildrenRun(rows[1..], m', e, current);
        PartKeys(rows[1..], Child);
        MoveIn(m, k, NodeOf(v), Part(rows[1..], Child));
      } else {
        assert ChildEvents(rows) == ChildEvents(rows[1..]);
        d := ChildrenRun(rows[1..], m, e, c);
      }
    }
  }

  lemma {:induction false} ArraysRun(rows: seq<Entry>, m: map<string, Node>, e: bool, c: seq<string>) returns (d: Doc)
    requires Distinct(rows) && Fresh(rows, Array, m)
    ensures d == Run(ArrayEvents(rows), Doc(Some(Tab(m, e)), c))
    ensures d.Doc? && d.node == Some(Tab(m + Part(rows, Array), e))
    decreases rows, 1
  {
    hide ItemEvents, ItemNodes, At, Run;
    d := Run(ArrayEvents(rows), Doc(Some(Tab(m, e)), c));
    if rows == [] {
      assert m + map[] == m;
      RunNothing(Doc(Some(Tab(m, e)), c));
    } else {
      var k, v := rows[0].key, rows[0].value;
      TailDistinct(rows);
      if IsTables(v) {
        var es := ItemEvents(v.items);
        ItemsRun(v.items, [], []);
        FreshCurrent(Under([k], es), Some(Tab(m, e)), c, [k] + []);
        RunBelow(k, es, m, e, []);
        var m' := m[k := NodeOf(v)];
        assert [] + ItemNodes(v.items) == ItemNodes(v.items);
        var current := [k] + Run(es, Doc(None, [])).current;
        assert Run(Under([k], es), Doc(Some(Tab(m, e)), c)) == Doc(Some(Tab(m', e)), current);
        RunAppend(Under([k], es), ArrayEvents(rows[1..]), Doc(Some(Tab(m, e)), c));
        d := ArraysRun(rows[1..], m', e, current);
        PartKeys(rows[1..], Array);
        MoveIn(m, k, NodeOf(v), Part(rows[1..], Array));
      } else {
        assert ArrayEvents(rows) == ArrayEvents(rows[1..]);
        d := ArraysRun(rows[1..], m, e, c);
      }
    }
  }

  /** The elements of an array of tables, after those already there. */
  lemma {:induction false} ItemsRun(items: seq<Value>, before: seq<Node>, c: seq<string>)
    requires forall i | 0 <= i < |items| :: items[i].Table? && Distinct(items[i].rows)
    requires items != [] || before != []
    ensures items != [] ==> ItemEvents(items) != [] && ItemEvents(items)[0].Append?
    ensures var d := Run(ItemEvents(items), Doc(if before == [] then None else Some(Arr(before)), c));
      d.Doc? && d.node == Some(Arr(before + ItemNodes(items)))
    decreases items
  {
    var start := Doc(if before == [] then None else Some(Arr(before)), c);
    hide At, Step, Run, TableEvents;
    if items == [] {
      assert before + [] == before;
      RunNothing(start);
    } else {
      var body := TableEvents(items[0].rows, false);
      var made := Doc(Some(Arr(before + [Tab(map[], true)])), []);
      AppendStep(before, c);
      DeepEvents(items[0].rows);
      TableRun(items[0].rows, true);
      RunInLast(body, before, map[], true, []);
      var after := before + [Tab(RowsMap(items[0].rows), true)];
      var current := Run(body, Doc(Some(Tab(map[], true)), [])).current;
      ItemsRun(items[1..], after, current);
      assert ItemEvents(items) == [Append([])] + (body + ItemEvents(items[1..]));
      RunFirst(Append([]), body + ItemEvents(items[1..]), start);
      RunAppend(body, ItemEvents(items[1..]), made);
      assert after + ItemNodes(items[1..]) == before + ItemNodes(items);
    }
  }

  lemma AppendStep(before: seq<Node>, c: seq<string>)
    ensures Step(Append([]), Doc(if before == [] then None else Some(Arr(before)), c))
         == Doc(Some(Arr(before + [Tab(map[], true)])), [])
  {
    if before == [] { assert before + [Tab(map[], true)] == [Tab(map[], true)]; }
  }

  // ---------- the built tree is the dictionary ----------

  lemma {:induction false} EraseValue(v: Value)
    requires DistinctValue(v)
    ensures Erase(NodeOf(v)) == Image(v)
    decreases v, 2
  {
    if v.Table? {
      EraseRows(v.rows, WritesHeader(v.rows));
    } else if IsTables(v) {
      EraseItems(v.items);
    }
  }

  lemma {:induction false} EraseItems(items: seq<Value>)
    requires forall i | 0 <= i < |items| :: items[i].Table? && Distinct(items[i].rows)
    ensures Erase(Arr(ItemNodes(items))) == Many(ImageItems(items))
    decreases items, 1
  {
    if items != [] {
      EraseRows(items[0].rows, true);
      EraseItems(items[1..]);
      var nodes := ItemNodes(items);
      assert nodes[1..] == ItemNodes(items[1..]);
      assert Erase(Arr(nodes)).elements == [Erase(nodes[0])] + Erase(Arr(nodes[1..])).elements;
    }
  }

  ghost predicate HasKey(rows: seq<Entry>, k: string) {
    exists i | 0 <= i < |rows| :: rows[i].key == k
  }

  lemma SameKeys(rows: seq<Entry>)
    requires Distinct(rows)
    ensures forall k :: k in RowsMap(rows) <==> HasKey(rows, k)
    ensures forall k :: k in ImageRows(rows) <==> HasKey(rows, k)
  {
    hide Distinct, NodeOf, Image, Part, ImageRows;
    ImageKeys(rows);
    KeysOfKind(rows, Scalar);
    KeysOfKind(rows, Child);
    KeysOfKind(rows, Array);
    forall k | HasKey(rows, k) ensures k in RowsMap(rows) && k in ImageRows(rows) {
      var i :| 0 <= i < |rows| && rows[i].key == k;
      RowFound(rows, i);
    }
  }

  lemma KeysOfKind(rows: seq<Entry>, kind: Kind)
    ensures forall k | k in Part(rows, kind) :: HasKey(rows, k)
  {
    hide Part;
    PartKeys(rows, kind);
  }

  lemma {:induction false} EraseRows(rows: seq<Entry>, e: bool)
    requires Distinct(rows)
    ensures Erase(Tab(RowsMap(rows), e)) == Dict(ImageRows(rows))
    decreases rows, 1
  {
    hide RowsMap, ImageRows;
    var m := RowsMap(rows);
    SameKeys(rows);
    var erased := Erase(Tab(m, e)).m;
    forall k | HasKey(rows, k) ensures erased[k] == ImageRows(rows)[k] {
      var i :| 0 <= i < |rows| && rows[i].key == k;
      RowFound(rows, i);
      EraseValue(rows[i].value);
    }
    assert erased == ImageRows(rows);
  }

  lemma {:induction false} ImageKeys(rows: seq<Entry>)
    ensures forall k | k in ImageRows(rows) :: HasKey(rows, k)
  {
    if rows != [] {
      ImageKeys(rows[1..]);
      forall k | k in ImageRows(rows) ensures HasKey(rows, k) {
        if k in ImageRows(rows[1..]) {
          var i :| 0 <= i < |rows[1..]| && rows[1..][i].key == k;
          assert rows[i + 1].key == k;
        } else {
          assert rows[0].key == k;
        }
      }
    }
  }

  lemma {:induction false} RowFound(rows: seq<Entry>, i: nat)
    requires Distinct(rows) && i < |rows|
    ensures rows[i].key in RowsMap(rows) && RowsMap(rows)[rows[i].key] == NodeOf(rows[i].value)
    ensures rows[i].key in ImageRows(rows) && ImageRows(rows)[rows[i].key] == Image(rows[i].value)
  {
    var kind := KindOf(rows[i].value);
    PartFound(rows, i);
    PartKeys(rows, Scalar);
    PartKeys(rows, Child);
    PartKeys(rows, Array);
  }

  lemma {:induction false} PartFound(rows: seq<Entry>, i: nat)
    requires Distinct(rows) && i < |rows|
    ensures var part := Part(rows, KindOf(rows[i].value));
      rows[i].key in part && part[rows[i].key] == NodeOf(rows[i].value)
    ensures rows[i].key in ImageRows(rows) && ImageRows(rows)[rows[i].key] == Image(rows[i].value)
  {
    TailDistinct(rows);
    if i > 0 {
      PartFound(rows[1..], i - 1);
    }
  }

  // ---------- a tricky key spoils the text ----------

  lemma LexSpoiled(a: seq<string>, b: seq<string>)
    requires LexLines(a).None? || LexLines(b).None?
    ensures LexLines(a + b).None?
  {
    LexLinesAppend(a, b);
  }

  lemma LineSpoiled(line: string, head: string, tail: string)
    requires line == head + "\n" + tail && '\n' !in head && LexLine(head).None?
    ensures LexLines([line]).None?
  {
    hide LexLine;
    LexJoin(head, tail);
    LexOneLine(head);
  }

  lemma HeaderSpoiled(path: seq<string>)
    requires path != [] && !Clean(path)
    ensures LexLines([HeaderLine(path)]).None? && LexLines([ArrayLine(path)]).None?
  {
    hide LexLine, LexLines, PathText;
    var head, tail, front := TrickyPathBreaks(path);
    UnclosedFails(front);
    LineSpoiled(HeaderLine(path), "[" + head, tail + "]");
    LineSpoiled(ArrayLine(path), "[[" + head, tail + "]]");
  }

  lemma UnclosedFails(path: seq<string>)
    requires path != [] && Clean(path)
    ensures LexLine("[" + PathText(path)).None? && LexLine("[[" + PathText(path)).None?
  {
    hide ReadPath, PathText;
    PathTextStarts(path);
    var t := PathText(path);
    PathReads(path, "");
    assert t + "" == t;
    assert ("[" + t)[1..] == t && ("[[" + t)[2..] == t;
    assert ("[" + t)[1] == t[0];
  }

  lemma PairSpoiled(key: string, v: Value)
    requires Inline(v) && TrickyKey(key)
    ensures LexLines([PairLine(key, v)]).None?
  {
    hide LexLine, LexLines, ValueText;
    var bare := key[..|key| - 1];
    BareIsItsOwnText(bare);
    TrickyIsItsOwnText(key);
    assert key == bare + "\n";
    NoValueFails(bare);
    assert PairLine(key, v) == bare + "\n" + (" = " + ValueText(v));
    LineSpoiled(PairLine(key, v), bare, " = " + ValueText(v));
  }

  lemma NoValueFails(key: string)
    requires key != "" && AllBare(key)
    ensures LexLine(key).None?
  {
    hide ReadPath, KeyText;
    BareIsItsOwnText(key);
    PathReads([key], "");
    assert PathText([key]) + "" == key;
    assert BareChar(key[0]);
  }

  /** Every table says its path in some line. */
  lemma {:induction false} SpoiledPath(rows: seq<Entry>, path: seq<string>)
    requires Encodable(rows) && path != [] && !Clean(path)
    ensures LexLines(TableLines(rows, path, true)).None?
    decreases rows
  {
    hide LexLines, HeaderLine;
    if WritesHeader(rows) {
      HeaderSpoiled(path);
      TableSplit(rows, path, true);
      LexSpoiled([HeaderLine(path)], TableLines(rows, path, true)[1..]);
    } else {
      TableSplit(rows, path, true);
      FirstEntryShape(rows);
      var e := rows[0];
      assert EncodableValue(e.value);
      assert !Clean(path + [e.key]) by {
        var i :| 0 <= i < |path| && TrickyKey(path[i]);
        assert (path + [e.key])[i] == path[i];
      }
      if e.value.Table? {
        SpoiledPath(e.value.rows, path + [e.key]);
        LexSpoiled(TableLines(e.value.rows, path + [e.key], true), ChildLines(rows[1..], path));
        assert LexLines(ChildLines(rows, path)).None?;
      } else {
        SpoiledItems(e.value.items, path + [e.key]);
        LexSpoiled(ItemLines(e.value.items, path + [e.key]), ArrayLines(rows[1..], path));
        assert LexLines(ArrayLines(rows, path)).None?;
      }
      LexSpoiled(ChildLines(rows, path), ArrayLines(rows, path));
      LexSpoiled(TableHead(rows, path, true), ChildLines(rows, path) + ArrayLines(rows, path));
    }
  }

  lemma FirstEntryShape(rows: seq<Entry>)
    requires !WritesHeader(rows)
    ensures rows != [] && !IsScalar(rows[0].value)
  {
  }

  function TableHead(rows: seq<Entry>, path: seq<string>, header: bool): seq<string>
    requires Encodable(rows)
  {
    (if header && path != [] && WritesHeader(rows) then [HeaderLine(path)] else []) +
    ScalarLines(rows) + (if HasScalar(rows) then [""] else [])
  }

  lemma TableSplit(rows: seq<Entry>, path: seq<string>, header: bool)
    requires Encodable(rows)
    ensures TableLines(rows, path, header)
      == TableHead(rows, path, header) + (ChildLines(rows, path) + ArrayLines(rows, path))
    ensures header && path != [] && WritesHeader(rows) ==>
      TableLines(rows, path, header) == [HeaderLine(path)] + TableLines(rows, path, header)[1..]
  {
    hide ScalarLines, ChildLines, ArrayLines, HeaderLine;
  }

  lemma SpoiledItems(items: seq<Value>, path: seq<string>)
    requires items != [] && forall i | 0 <= i < |items| :: items[i].Table?
    requires EncodableItems(items) && path != [] && !Clean(path)
    ensures LexLines(ItemLines(items, path)).None?
  {
    hide LexLines, ArrayLine;
    HeaderSpoiled(path);
    var lines := ItemLines(items, path);
    assert lines == [ArrayLine(path)] + lines[1..];
    LexSpoiled([ArrayLine(path)], lines[1..]);
  }

  lemma {:induction false} SpoiledRows(rows: seq<Entry>, path: seq<string>, header: bool)
    requires Encodable(rows) && !CleanRows(rows)
    ensures LexLines(TableLines(rows, path, header)).None?
    decreases rows, 2
  {
    hide LexLines, ScalarLines, ChildLines, ArrayLines;
    SpoiledParts(rows, path);
    TableSplit(rows, path, header);
    if LexLines(ScalarLines(rows)).None? {
      var h := if header && path != [] && WritesHeader(rows) then [HeaderLine(path)] else [];
      LexSpoiled(h, ScalarLines(rows));
      LexSpoiled(h + ScalarLines(rows), if HasScalar(rows) then [""] else []);
    }
    LexSpoiledHead(rows, path, header);
  }

  lemma LexSpoiledHead(rows: seq<Entry>, path: seq<string>, header: bool)
    requires Encodable(rows)
    requires LexLines(TableHead(rows, path, header)).None? || LexLines(ChildLines(rows, path)).None?
      || LexLines(ArrayLines(rows, path)).None?
    ensures LexLines(TableLines(rows, path, header)).None?
  {
    hide LexLines, TableHead, ChildLines, ArrayLines, TableLines;
    TableSplit(rows, path, header);
    if LexLines(ChildLines(rows, path)).None? || LexLines(ArrayLines(rows, path)).None? {
      LexSpoiled(ChildLines(rows, path), ArrayLines(rows, path));
    }
    LexSpoiled(TableHead(rows, path, header), ChildLines(rows, path) + ArrayLines(rows, path));
  }

  lemma {:induction false} SpoiledParts(rows: seq<Entry>, path: seq<string>)
    requires Encodable(rows) && !CleanRows(rows)
    ensures LexLines(ScalarLines(rows)).None? || LexLines(ChildLines(rows, path)).None?
      || LexLines(ArrayLines(rows, path)).None?
    decreases rows, 1
  {
    hide LexLines, TableLines, ItemLines, PairLine;
    var e := rows[0];
    assert EncodableValue(e.value);
    if !TrickyKey(e.key) && CleanValue(e.value) {
      SpoiledParts(rows[1..], path);
    }
    if IsScalar(e.value) {
      if TrickyKey(e.key) { PairSpoiled(e.key, e.value); }
      LexSpoiledOr([PairLine(e.key, e.value)], ScalarLines(rows[1..]));
    } else if e.value.Table? {
      if TrickyKey(e.key) {
        assert TrickyKey((path + [e.key])[|path|]);
        SpoiledPath(e.value.rows, path + [e.key]);
      } else if !CleanRows(e.value.rows) {
        SpoiledRows(e.value.rows, path + [e.key], true);
      }
      LexSpoiledOr(TableLines(e.value.rows, path + [e.key], true), ChildLines(rows[1..], path));
    } else {
      if TrickyKey(e.key) {
        assert TrickyKey((path + [e.key])[|path|]);
        SpoiledItems(e.value.items, path + [e.key]);
      } else if !CleanItems(e.value.items) {
        SpoiledElements(e.value.items, path + [e.key]);
      }
      LexSpoiledOr(ItemLines(e.value.items, path + [e.key]), ArrayLines(rows[1..], path));
    }
    if !IsScalar(e.value) { assert ScalarLines(rows) == ScalarLines(rows[1..]); }
    if !e.value.Table? { assert ChildLines(rows, path) == ChildLines(rows[1..], path); }
    if !IsTables(e.value) { assert ArrayLines(rows, path) == ArrayLines(rows[1..], path); }
  }

  lemma LexSpoiledOr(a: seq<string>, b: seq<string>)
    ensures LexLines(a).None? || LexLines(b).None? ==> LexLines(a + b).None?
  {
    LexLinesAppend(a, b);
  }

  lemma {:induction false} SpoiledElements(items: seq<Value>, path: seq<string>)
    requires forall i | 0 <= i < |items| :: items[i].Table?
    requires EncodableItems(items) && !CleanItems(items)
    ensures LexLines(ItemLines(items, path)).None?
    decreases items
  {
    hide LexLines, TableLines, ArrayLine;
    var body := TableLines(items[0].rows, path, false);
    var lines := [ArrayLine(path)] + body;
    var blank := if lines[|lines| - 1] != "" then [""] else [];
    if !CleanRows(items[0].rows) {
      SpoiledRows(items[0].rows, path, false);
    } else {
      SpoiledElements(items[1..], path);
    }
    LexSpoiledOr([ArrayLine(path)], body);
    LexSpoiledOr(lines, blank);
    LexSpoiledOr(lines + blank, ItemLines(items[1..], path));
  }

  // ---------- the theorem ----------

  predicate IsComment(line: string) {
    line != "" && line[0] == '#' && '\n' !in line
  }

  lemma TextLexes(rows: seq<Entry>, owner: Option<string>)
    requires Encodable(rows) && (owner.Some? ==> IsComment(owner.value))
    ensures LexText(Text(rows, owner)) == LexLines(TableLines(rows, [], true))
  {
    hide LexText, LexLines, TableLines, Join, StripLeft, StripRight;
    var lines := TableLines(rows, [], true);
    LexJoinedLines(lines);
    LexStripLeft(Join(lines));
    LexStripRight(StripLeft(Join(lines)));
    var rendered := StripRight(StripLeft(Join(lines)));
    BlankLast(rendered);
    if owner.Some? {
      CommentFirst(owner.value, rendered + "\n");
    }
  }

  lemma CommentFirst(line: string, rest: string)
    requires IsComment(line)
    ensures LexText(line + "\n" + rest) == LexText(rest)
  {
    LexJoin(line, rest);
    LexOneLine(line);
    if LexText(rest).Some? { assert [] + LexText(rest).value == LexText(rest).value; }
  }

  /** Reading a dumped dictionary gives it back exactly when no key ends in a newline
      after bare characters; otherwise the text is not TOML. */
  lemma RoundTrip(rows: seq<Entry>, owner: Option<string>)
    requires Encodable(rows) && Distinct(rows) && (owner.Some? ==> IsComment(owner.value))
    ensures ReadDocument(Text(rows, owner)) == if CleanRows(rows) then Some(Dict(ImageRows(rows))) else None
  {
    hide LexText, LexLines, TableLines, Text, Run, Under, TableEvents, ImageRows, Erase;
    TextLexes(rows, owner);
    if CleanRows(rows) {
      TableReads(rows, [], true);
      UnderNothing(TableEvents(rows, false));
      TableRun(rows, true);
      EraseRows(rows, true);
    } else {
      SpoiledRows(rows, [], true);
    }
  }

  /** The failing family is not empty. */
  lemma NewlineKeyFails()
    ensures var rows := [Entry("a\n", Int(1))];
      Encodable(rows) && Distinct(rows) && ReadDocument(Text(rows, None)).None?
  {
    var rows := [Entry("a\n", Int(1))];
    assert rows[1..] == [];
    assert TrickyKey("a\n");
    assert Encodable(rows) && !CleanRows(rows);
    RoundTrip(rows, None);
  }
}
