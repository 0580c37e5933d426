/**
 The writer as shantytown/codex.py runs it: one list of lines, appended to in place,
 and an error that abandons the text when a value has no TOML form.
 */
module TomlEmitter {
  import opened Basics
  import opened TomlWriter
  import opened TomlEncodable

  function Rendered(path: seq<string>): seq<string> {
    if path == [] then [] else [KeyText(path[0])] + Rendered(path[1..])
  }

  function Dotted(parts: seq<string>): string {
    if parts == [] then "" else if |parts| == 1 then parts[0] else parts[0] + "." + Dotted(parts[1..])
  }

  lemma {:induction false} DottedIsPathText(path: seq<string>)
    ensures Dotted(Rendered(path)) == PathText(path)
  {
    if path != [] {
      DottedIsPathText(path[1..]);
      assert Rendered(path)[1..] == Rendered(path[1..]);
    }
  }

  lemma {:induction false} RenderedAppend(path: seq<string>, key: string)
    ensures Rendered(path + [key]) == Rendered(path) + [KeyText(key)]
  {
    if path == [] {
      assert [] + [key] == [key];
    } else {
      RenderedAppend(path[1..], key);
      assert (path + [key])[1..] == path[1..] + [key];
    }
  }

  lemma EncodableDrop(rows: seq<Entry>, i: nat)
    requires i <= |rows| && Encodable(rows)
    ensures Encodable(rows[i..])
  {
    EncodableAt(rows);
    EncodableAt(rows[i..]);
    assert forall j | 0 <= j < |rows[i..]| :: rows[i..][j] == rows[i + j];
  }

  lemma EscapeStep(s: string, i: nat)
    requires i < |s|
    ensures EscapeText(s[i..]) == EscapeChar(s[i]) + EscapeText(s[i + 1..])
  {
    assert s[i..][1..] == s[i + 1..];
  }

  lemma EscapeNothing()
    ensures EscapeText("") == ""
  {
  }

  /** `_escape`. */
  method Escape(s: string) returns (out: string)
    ensures out == EscapeText(s)
  {
    hide EscapeText, EscapeChar;
    EscapeNothing();
    out := "";
    assert s[0..] == s;
    for i := 0 to |s|
      invariant out + EscapeText(s[i..]) == EscapeText(s)
    {
      EscapeStep(s, i);
      out := out + EscapeChar(s[i]);
    }
    assert s[|s|..] == "";
  }

  /** What the row at `i` adds to each of the three loops of `_table`. */
  lemma RowStep(rows: seq<Entry>, i: nat, path: seq<string>)
    requires Encodable(rows) && i < |rows|
    ensures Encodable(rows[i..]) && Encodable(rows[i + 1..]) && EncodableValue(rows[i].value)
    ensures ScalarLines(rows[i..]) ==
      (if IsScalar(rows[i].value) then [PairLine(rows[i].key, rows[i].value)] else []) + ScalarLines(rows[i + 1..])
    ensures ChildLines(rows[i..], path) ==
      (if rows[i].value.Table? then TableLines(rows[i].value.rows, path + [rows[i].key], true)
       else []) + ChildLines(rows[i + 1..], path)
    ensures ArrayLines(rows[i..], path) ==
      (if IsTables(rows[i].value) then ItemLines(rows[i].value.items, path + [rows[i].key])
       else []) + ArrayLines(rows[i + 1..], path)
  {
    hide TableLines, ItemLines, PairLine;
    EncodableDrop(rows, i);
    EncodableDrop(rows, i + 1);
    EncodableAt(rows);
    assert rows[i..][1..] == rows[i + 1..];
  }

  lemma ItemStep(items: seq<Value>, i: nat)
    requires i < |items| && forall j | 0 <= j < |items| :: items[j].Table?
    ensures EncodableItems(items[i..]) <==> Encodable(items[i].rows) && EncodableItems(items[i + 1..])
    ensures forall path: seq<string> :: EncodableItems(items[i..]) ==>
      var lines := [ArrayLine(path)] + TableLines(items[i].rows, path, false);
      ItemLines(items[i..], path) ==
        lines + (if lines[|lines| - 1] != "" then [""] else []) + ItemLines(items[i + 1..], path)
  {
    hide TableLines, ArrayLine, Encodable;
    assert items[i..][1..] == items[i + 1..];
  }

  lemma NoRows(path: seq<string>)
    ensures Encodable([]) && ScalarLines([]) == [] && ChildLines([], path) == [] && ArrayLines([], path) == []
  {
  }

  lemma NoItems(path: seq<string>)
    ensures EncodableItems([]) && ItemLines([], path) == []
  {
  }

  class Writer {
    var lines: seq<string>

    constructor ()
      ensures lines == []
    {
      lines := [];
    }

    method Append(line: string)
      modifies this
      ensures lines == old(lines) + [line]
    {
      lines := lines + [line];
    }

    /** `_table`. False is the TypeError: some value has no TOML form. */
    method WriteTable(table: seq<Entry>, path: seq<string>, header: bool, ghost keys: seq<string>) returns (ok: bool)
      requires path == Rendered(keys)
      modifies this
      ensures ok <==> Encodable(table)
      ensures ok ==> lines == old(lines) + TableLines(table, keys, header)
      decreases table, 4
    {
      hide Rendered, KeyText, Encodable, EncodableValue, TableLines, ScalarLines, ChildLines, ArrayLines;
      EncodableAt(table);
      ghost var head := if header && keys != [] && WritesHeader(table) then [HeaderLine(keys)] else [];
      if header && path != [] && WritesHeader(table) {
        PathEmpty(keys);
        DottedIsPathText(keys);
        Append("[" + Dotted(path) + "]");
      }
      PathEmpty(keys);
      assert lines == old(lines) + head;
      ok := WriteScalars(table);
      if !ok { return; }
      if HasScalar(table) {
        Append("");
      }
      ok := WriteChildren(table, path, keys);
      if !ok { return; }
      ok := WriteArrays(table, path, keys);
      if !ok { return; }
      AllEncodable(table);
      TableLinesAre(table, keys, header);
    }

    method WriteScalars(table: seq<Entry>) returns (ok: bool)
      modifies this
      ensures ok <==> forall i | 0 <= i < |table| && IsScalar(table[i].value) :: EncodableValue(table[i].value)
      ensures Encodable(table) ==> lines == old(lines) + ScalarLines(table)
      decreases table, 0
    {
      hide Encodable, ScalarLines, ChildLines, ArrayLines, TableLines, ItemLines, PairLine;
      ghost var start := lines;
      for i := 0 to |table|
        invariant forall j | 0 <= j < i && IsScalar(table[j].value) :: EncodableValue(table[j].value)
        invariant Encodable(table) ==>
          Encodable(table[i..]) && lines + ScalarLines(table[i..]) == start + ScalarLines(table)
      {
        var e := table[i];
        if Encodable(table) { RowStep(table, i, []); }
        if IsScalar(e.value) {
          if !Inline(e.value) { return false; }
          Append(PairLine(e.key, e.value));
        }
      }
      assert table[|table|..] == [];
      NoRows([]);
      return true;
    }

    method WriteChildren(table: seq<Entry>, path: seq<string>, ghost keys: seq<string>) returns (ok: bool)
      requires path == Rendered(keys)
      modifies this
      ensures ok <==> forall i | 0 <= i < |table| && table[i].value.Table? :: EncodableValue(table[i].value)
      ensures Encodable(table) ==> lines == old(lines) + ChildLines(table, keys)
      decreases table, 3
    {
      hide Encodable, TableLines, ChildLines, Rendered, KeyText;
      ghost var start := lines;
      for i := 0 to |table|
        invariant forall j | 0 <= j < i && table[j].value.Table? :: EncodableValue(table[j].value)
        invariant Encodable(table) ==>
          Encodable(table[i..]) && lines + ChildLines(table[i..], keys) == start + ChildLines(table, keys)
      {
        var e := table[i];
        if Encodable(table) { RowStep(table, i, keys); }
        if e.value.Table? {
          RenderedAppend(keys, e.key);
          ok := WriteTable(e.value.rows, path + [KeyText(e.key)], true, keys + [e.key]);
          if !ok { return; }
        }
      }
      assert table[|table|..] == [];
      NoRows(keys);
      return true;
    }

    method WriteArrays(table: seq<Entry>, path: seq<string>, ghost keys: seq<string>) returns (ok: bool)
      requires path == Rendered(keys)
      modifies this
      ensures ok <==> forall i | 0 <= i < |table| && IsTables(table[i].value) :: EncodableValue(table[i].value)
      ensures Encodable(table) ==> lines == old(lines) + ArrayLines(table, keys)
      decreases table, 3
    {
      hide Encodable, ItemLines, ArrayLines, Rendered, KeyText;
      ghost var start := lines;
      for i := 0 to |table|
        invariant forall j | 0 <= j < i && IsTables(table[j].value) :: EncodableValue(table[j].value)
        invariant Encodable(table) ==>
          Encodable(table[i..]) && lines + ArrayLines(table[i..], keys) == start + ArrayLines(table, keys)
      {
        var e := table[i];
        if Encodable(table) { RowStep(table, i, keys); }
        if IsTables(e.value) {
          RenderedAppend(keys, e.key);
          ok := WriteItems(e.value.items, path + [KeyText(e.key)], keys + [e.key]);
          if !ok { return; }
        }
      }
      assert table[|table|..] == [];
      NoRows(keys);
      return true;
    }

    method WriteItems(items: seq<Value>, path: seq<string>, ghost keys: seq<string>) returns (ok: bool)
      requires path == Rendered(keys) && forall i | 0 <= i < |items| :: items[i].Table?
      modifies this
      ensures ok <==> EncodableItems(items)
      ensures ok ==> lines == old(lines) + ItemLines(items, keys)
      decreases items
    {
      hide Encodable, EncodableItems, TableLines, ItemLines, Rendered, Dotted, PathText;
      ghost var start := lines;
      for i := 0 to |items|
        invariant EncodableItems(items) <==> EncodableItems(items[i..])
        invariant EncodableItems(items) ==> lines + ItemLines(items[i..], keys) == start + ItemLines(items, keys)
      {
        ItemStep(items, i);
        DottedIsPathText(keys);
        ghost var before := lines;
        Append("[[" + Dotted(path) + "]]");
        ok := WriteTable(items[i].rows, path, false, keys);
        if !ok { return; }
        ghost var mine := [ArrayLine(keys)] + TableLines(items[i].rows, keys, false);
        assert lines == before + mine;
        assert lines[|lines| - 1] == mine[|mine| - 1];
        if lines[|lines| - 1] != "" {
          Append("");
        }
      }
      assert items[|items|..] == [];
      NoItems(keys);
      return true;
    }
  }

  lemma PathEmpty(path: seq<string>)
    ensures Rendered(path) == [] <==> path == []
  {
  }

  lemma AllEncodable(rows: seq<Entry>)
    requires forall i | 0 <= i < |rows| && IsScalar(rows[i].value) :: EncodableValue(rows[i].value)
    requires forall i | 0 <= i < |rows| && rows[i].value.Table? :: EncodableValue(rows[i].value)
    requires forall i | 0 <= i < |rows| && IsTables(rows[i].value) :: EncodableValue(rows[i].value)
    ensures Encodable(rows)
  {
    hide EncodableValue;
    EncodableAt(rows);
  }

  lemma TableLinesAre(rows: seq<Entry>, path: seq<string>, header: bool)
    requires Encodable(rows)
    ensures TableLines(rows, path, header) ==
      (if header && path != [] && WritesHeader(rows) then [HeaderLine(path)] else []) + ScalarLines(rows) +
      (if HasScalar(rows) then [""] else []) + ChildLines(rows, path) + ArrayLines(rows, path)
  {
  }

  /** `dumps`: None is the TypeError. `owner` is the ownership line to keep, if any. */
  method Dumps(data: seq<Entry>, owner: Option<string>) returns (text: Option<string>)
    ensures text == if Encodable(data) then Some(Text(data, owner)) else None
    ensures text.Some? <==> !exists path, below :: Misplaced(Table(data), path, below)
  {
    EncodableExactly(data);
    var w := new Writer();
    var ok := w.WriteTable(data, [], true, []);
    if !ok { return None; }
    var rendered := StripRight(StripLeft(Join(w.lines))) + "\n";
    assert [] + TableLines(data, [], true) == TableLines(data, [], true);
    match owner
    case None => return Some(rendered);
    case Some(line) => return Some(line + "\n" + rendered);
  }
}
