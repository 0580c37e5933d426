/**
 The TOML writer of shantytown/codex.py.

 The functions say which lines a table is written as; the class follows the
 source, which appends to one list of lines, and is proved to append exactly those.
 */
module TomlWriter {
  import opened Basics

  /** A Python value the writer may be handed. A dictionary keeps its insertion order. */
  datatype Value =
    | Bool(b: bool)
    | Int(n: int)
    | Str(s: string)
    | List(items: seq<Value>)
    | Table(rows: seq<Entry>)

  datatype Entry = Entry(key: string, value: Value)

  // ---------- shapes ----------

  predicate IsTables(v: Value) {
    v.List? && v.items != [] && forall i | 0 <= i < |v.items| :: v.items[i].Table?
  }

  predicate IsScalar(v: Value) {
    !v.Table? && !IsTables(v)
  }

  predicate HasScalar(rows: seq<Entry>) {
    exists i | 0 <= i < |rows| :: IsScalar(rows[i].value)
  }

  /** A dictionary has each key once, at every depth. */
  ghost predicate Distinct(rows: seq<Entry>)
    decreases rows
  {
    && (forall i, j | 0 <= i < j < |rows| :: rows[i].key != rows[j].key)
    && (forall i | 0 <= i < |rows| :: DistinctValue(rows[i].value))
  }

  ghost predicate DistinctValue(v: Value)
    decreases v
  {
    match v
    case Table(rows) => Distinct(rows)
    case List(items) => forall i | 0 <= i < |items| :: DistinctValue(items[i])
    case _ => true
  }

  /** A value `_value` can put on one line: no dictionary anywhere inside. */
  predicate Inline(v: Value)
    decreases v
  {
    match v
    case Table(_) => false
    case List(items) => InlineAll(items)
    case _ => true
  }

  predicate InlineAll(vs: seq<Value>)
    decreases vs
  {
    vs == [] || (Inline(vs[0]) && InlineAll(vs[1..]))
  }

  /** The tables `_table` writes without raising TypeError. */
  predicate Encodable(rows: seq<Entry>)
    decreases rows
  {
    rows == [] || (EncodableValue(rows[0].value) && Encodable(rows[1..]))
  }

  predicate EncodableValue(v: Value)
    decreases v, 1
  {
    if v.Table? then Encodable(v.rows)
    else if IsTables(v) then EncodableItems(v.items)
    else Inline(v)
  }

  predicate EncodableItems(items: seq<Value>)
    requires forall i | 0 <= i < |items| :: items[i].Table?
    decreases items
  {
    items == [] || (Encodable(items[0].rows) && EncodableItems(items[1..]))
  }

  // ---------- one key, one value ----------

  predicate BareChar(c: char) {
    'A' <= c <= 'Z' || 'a' <= c <= 'z' || '0' <= c <= '9' || c == '_' || c == '-'
  }

  predicate AllBare(s: string) {
    forall i | 0 <= i < |s| :: BareChar(s[i])
  }

  /** Bare characters and then one newline: Python's `$` lets this one through. */
  predicate TrickyKey(key: string) {
    |key| > 1 && key[|key| - 1] == '\n' && AllBare(key[..|key| - 1])
  }

  /** `_BARE_KEY.match(key)`. */
  predicate BareMatch(key: string) {
    (key != "" && AllBare(key)) || TrickyKey(key)
  }

  function HexDigit(n: nat): char
    requires n < 16
  {
    "0123456789ABCDEF"[n]
  }

  function EscapeChar(c: char): string {
    if c == '\\' then "\\\\"
    else if c == '"' then "\\\""
    else if c as int == 8 then "\\b"
    else if c as int == 12 then "\\f"
    else if c == '\n' then "\\n"
    else if c == '\r' then "\\r"
    else if c == '\t' then "\\t"
    else if c as int < 0x20 || c as int == 0x7F then
      "\\u00" + [HexDigit(c as int / 16), HexDigit(c as int % 16)]
    else [c]
  }

  function EscapeText(s: string): string {
    if s == "" then "" else EscapeChar(s[0]) + EscapeText(s[1..])
  }

  function KeyText(key: string): string {
    if BareMatch(key) then key else "\"" + EscapeText(key) + "\""
  }

  function NatText(n: nat): string {
    if n < 10 then ["0123456789"[n]] else NatText(n / 10) + ["0123456789"[n % 10]]
  }

  function IntText(n: int): string {
    if n < 0 then "-" + NatText(-n) else NatText(n)
  }

  function ValueText(v: Value): string
    requires Inline(v)
    decreases v
  {
    match v
    case Bool(b) => if b then "true" else "false"
    case Int(n) => IntText(n)
    case Str(s) => "\"" + EscapeText(s) + "\""
    case List(items) => "[" + ItemsText(items) + "]"
  }

  function ItemsText(vs: seq<Value>): string
    requires InlineAll(vs)
    decreases vs
  {
    if vs == [] then ""
    else if |vs| == 1 then ValueText(vs[0])
    else ValueText(vs[0]) + ", " + ItemsText(vs[1..])
  }

  // ---------- the lines of a table ----------

  function PathText(path: seq<string>): string {
    if path == [] then ""
    else if |path| == 1 then KeyText(path[0])
    else KeyText(path[0]) + "." + PathText(path[1..])
  }

  function HeaderLine(path: seq<string>): string {
    "[" + PathText(path) + "]"
  }

  function ArrayLine(path: seq<string>): string {
    "[[" + PathText(path) + "]]"
  }

  function PairLine(key: string, v: Value): string
    requires Inline(v)
  {
    KeyText(key) + " = " + ValueText(v)
  }

  predicate WritesHeader(rows: seq<Entry>) {
    HasScalar(rows) || rows == []
  }

  function TableLines(rows: seq<Entry>, path: seq<string>, header: bool): seq<string>
    requires Encodable(rows)
    decreases rows, 2
  {
    (if header && path != [] && WritesHeader(rows) then [HeaderLine(path)] else []) +
    ScalarLines(rows) +
    (if HasScalar(rows) then [""] else []) +
    ChildLines(rows, path) +
    ArrayLines(rows, path)
  }

  function ScalarLines(rows: seq<Entry>): seq<string>
    requires Encodable(rows)
  {
    if rows == [] then []
    else
      assert EncodableValue(rows[0].value);
      (if IsScalar(rows[0].value) then [PairLine(rows[0].key, rows[0].value)] else []) +
         ScalarLines(rows[1..])
  }

  function ChildLines(rows: seq<Entry>, path: seq<string>): seq<string>
    requires Encodable(rows)
    decreases rows, 1
  {
    if rows == [] then []
    else
      assert EncodableValue(rows[0].value);
      (if rows[0].value.Table? then TableLines(rows[0].value.rows, path + [rows[0].key], true) else []) +
         ChildLines(rows[1..], path)
  }

  function ArrayLines(rows: seq<Entry>, path: seq<string>): seq<string>
    requires Encodable(rows)
    decreases rows, 1
  {
    if rows == [] then []
    else
      assert EncodableValue(rows[0].value);
      (if IsTables(rows[0].value) then ItemLines(rows[0].value.items, path + [rows[0].key]) else []) +
         ArrayLines(rows[1..], path)
  }

  function ItemLines(items: seq<Value>, path: seq<string>): seq<string>
    requires forall i | 0 <= i < |items| :: items[i].Table?
    requires EncodableItems(items)
    decreases items
  {
    if items == [] then []
    else
      var lines := [ArrayLine(path)] + TableLines(items[0].rows, path, false);
      lines + (if lines[|lines| - 1] != "" then [""] else []) + ItemLines(items[1..], path)
  }

  // ---------- the whole text ----------

  function Join(lines: seq<string>): string {
    if lines == [] then ""
    else if |lines| == 1 then lines[0]
    else lines[0] + "\n" + Join(lines[1..])
  }

  function StripLeft(s: string): string {
    if s != "" && s[0] == '\n' then StripLeft(s[1..]) else s
  }

  function StripRight(s: string): string {
    if s != "" && s[|s| - 1] == '\n' then StripRight(s[..|s| - 1]) else s
  }

  /** `dumps`; `owner` is the ownership comment line it keeps, when it keeps one. */
  function Text(rows: seq<Entry>, owner: Option<string>): string
    requires Encodable(rows)
  {
    var rendered := StripRight(StripLeft(Join(TableLines(rows, [], true)))) + "\n";
    match owner
    case None => rendered
    case Some(line) => line + "\n" + rendered
  }
}
