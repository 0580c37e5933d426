/**
 A reader for the part of TOML v1.0.0 the writer uses, written from the standard's
 sections "Keys", "String", "Integer", "Boolean", "Array", "Table" and
 "Array of Tables". Reading has two halves: every line becomes at most one event
 (or the document is malformed), and the events then build the tree, with the
 standard's ban on defining a key or a table twice.
 */
module TomlReader {
  import opened Basics
  import opened TomlWriter

  datatype Read<+T> = Fail | Got(value: T, rest: string)

  // ---------- characters ----------

  predicate IsWs(c: char) {
    c == ' ' || c == '\t'
  }

  function SkipWs(s: string): (r: string)
    ensures |r| <= |s|
    ensures s != "" && !IsWs(s[0]) ==> r == s
  {
    if s != "" && IsWs(s[0]) then SkipWs(s[1..]) else s
  }

  predicate IsDigit(c: char) {
    '0' <= c <= '9'
  }

  function HexValue(c: char): Option<nat> {
    if '0' <= c <= '9' then Some(c as int - '0' as int)
    else if 'A' <= c <= 'F' then Some(c as int - 'A' as int + 10)
    else if 'a' <= c <= 'f' then Some(c as int - 'a' as int + 10)
    else None
  }

  /** Four hexadecimal digits naming a Unicode scalar value. */
  function HexChar(s: string): Option<char>
    requires |s| == 4
  {
    match (HexValue(s[0]), HexValue(s[1]), HexValue(s[2]), HexValue(s[3]))
    case (Some(a), Some(b), Some(c), Some(d)) =>
      var n := ((a * 16 + b) * 16 + c) * 16 + d;
      if n < 0xD800 || 0xE000 <= n < 0x10000 then Some(n as char) else None
    case _ => None
  }

  function ShortEscape(c: char): Option<char> {
    if c == '\\' then Some('\\')
    else if c == '"' then Some('"')
    else if c == 'b' then Some(8 as char)
    else if c == 'f' then Some(12 as char)
    else if c == 'n' then Some('\n')
    else if c == 'r' then Some('\r')
    else if c == 't' then Some('\t')
    else None
  }

  function Cons<T>(x: T, r: Read<seq<T>>): Read<seq<T>> {
    match r
    case Fail => Fail
    case Got(xs, rest) => Got([x] + xs, rest)
  }

  /** A basic string, after its opening quotation mark. */
  function ReadBasic(s: string): (r: Read<string>)
    ensures r.Got? ==> |r.rest| < |s|
  {
    if s == "" then Fail
    else if s[0] == '"' then Got("", s[1..])
    else if s[0] == '\\' then
      if |s| >= 2 && ShortEscape(s[1]).Some? then Cons(ShortEscape(s[1]).value, ReadBasic(s[2..]))
      else if |s| >= 6 && s[1] == 'u' && HexChar(s[2..6]).Some? then
        Cons(HexChar(s[2..6]).value, ReadBasic(s[6..]))
      else Fail
    else if (s[0] as int < 0x20 && s[0] != '\t') || s[0] as int == 0x7F then Fail
    else Cons(s[0], ReadBasic(s[1..]))
  }

  // ---------- keys ----------

  /** `A-Za-z0-9_-`, of the section "Keys". */
  predicate BareKeyChar(c: char) {
    c == '-' || c == '_' || '0' <= c <= '9' || 'A' <= c <= 'Z' || 'a' <= c <= 'z'
  }

  function BareRun(s: string): (n: nat)
    ensures n <= |s|
  {
    if s != "" && BareKeyChar(s[0]) then 1 + BareRun(s[1..]) else 0
  }

  function ReadKey(s: string): (r: Read<string>)
    ensures r.Got? ==> |r.rest| < |s|
  {
    if s == "" then Fail
    else if s[0] == '"' then ReadBasic(s[1..])
    else
      var n := BareRun(s);
      if n == 0 then Fail else Got(s[..n], s[n..])
  }

  /** A dotted key, with whitespace allowed around the dots. */
  function ReadPath(s: string): (r: Read<seq<string>>)
    ensures r.Got? ==> |r.rest| < |s| && r.value != []
    decreases |s|
  {
    match ReadKey(s)
    case Fail => Fail
    case Got(key, rest) =>
      var t := SkipWs(rest);
      if t != "" && t[0] == '.' then Cons(key, ReadPath(SkipWs(t[1..])))
      else Got([key], rest)
  }

  // ---------- values ----------

  function DigitRun(s: string): (n: nat)
    ensures n <= |s|
    ensures forall i | 0 <= i < n :: IsDigit(s[i])
  {
    if s != "" && IsDigit(s[0]) then 1 + DigitRun(s[1..]) else 0
  }

  function NatValue(s: string): nat
    requires forall i | 0 <= i < |s| :: IsDigit(s[i])
  {
    if s == "" then 0 else
      assert IsDigit(s[|s| - 1]);
      NatValue(s[..|s| - 1]) * 10 + (s[|s| - 1] as int - '0' as int)
  }

  /** A decimal integer; leading zeros are not allowed. */
  function ReadInt(s: string): (r: Read<Value>)
    ensures r.Got? ==> |r.rest| < |s|
  {
    var signed := s != "" && (s[0] == '-' || s[0] == '+');
    var t := if signed then s[1..] else s;
    var n := DigitRun(t);
    if n == 0 || (n > 1 && t[0] == '0') then Fail
    else
      var magnitude: int := NatValue(t[..n]);
      Got(Int(if signed && s[0] == '-' then -magnitude else magnitude), t[n..])
  }

  function ReadValue(s: string): (r: Read<Value>)
    ensures r.Got? ==> |r.rest| < |s|
    decreases |s|, 0
  {
    if s == "" then Fail
    else if s[0] == '"' then
      match ReadBasic(s[1..])
      case Fail => Fail
      case Got(t, rest) => Got(Str(t), rest)
    else if s[0] == '[' then
      match ReadItems(s[1..])
      case Fail => Fail
      case Got(vs, rest) => Got(List(vs), rest)
    else if "true" <= s then Got(Bool(true), s[4..])
    else if "false" <= s then Got(Bool(false), s[5..])
    else ReadInt(s)
  }

  /** The items of an array, after its opening bracket; a trailing comma is allowed. */
  function ReadItems(s: string): (r: Read<seq<Value>>)
    ensures r.Got? ==> |r.rest| < |s|
    decreases |s|, 1
  {
    var t := SkipWs(s);
    if t == "" then Fail
    else if t[0] == ']' then Got([], t[1..])
    else
      match ReadValue(t)
      case Fail => Fail
      case Got(v, rest) =>
        var u := SkipWs(rest);
        if u == "" then Fail
        else if u[0] == ',' then Cons(v, ReadItems(u[1..]))
        else if u[0] == ']' then Got([v], u[1..])
        else Fail
  }

  // ---------- lines ----------

  datatype Event =
    | Header(path: seq<string>)   // [a.b]
    | Append(path: seq<string>)   // [[a.b]]
    | Pair(key: string, v: Value) // a = 1

  /** What may follow an expression on its line: whitespace, then a comment or nothing. */
  predicate Finished(s: string) {
    var t := SkipWs(s);
    t == "" || t[0] == '#'
  }

  function LexLine(line: string): Option<seq<Event>> {
    var s := SkipWs(line);
    if s == "" || s[0] == '#' then Some([])
    else if "[[" <= s then
      match ReadPath(SkipWs(s[2..]))
      case Fail => None
      case Got(path, rest) =>
        var t := SkipWs(rest);
        if "]]" <= t && Finished(t[2..]) then Some([Append(path)]) else None
    else if s[0] == '[' then
      match ReadPath(SkipWs(s[1..]))
      case Fail => None
      case Got(path, rest) =>
        var t := SkipWs(rest);
        if t != "" && t[0] == ']' && Finished(t[1..]) then Some([Header(path)]) else None
    else
      match ReadPath(s)
      case Fail => None
      case Got(path, rest) =>
        var t := SkipWs(rest);
        if t == "" || t[0] != '=' || |path| != 1 then None
        else
          match ReadValue(SkipWs(t[1..]))
          case Fail => None
          case Got(v, rest') => if Finished(rest') then Some([Pair(path[0], v)]) else None
  }

  function Cat(a: Option<seq<Event>>, b: Option<seq<Event>>): Option<seq<Event>> {
    if a.Some? && b.Some? then Some(a.value + b.value) else None
  }

  function LineEnd(s: string): (i: nat)
    ensures i <= |s|
    ensures i < |s| ==> s[i] == '\n'
    ensures '\n' !in s[..i]
  {
    if s == "" || s[0] == '\n' then 0 else 1 + LineEnd(s[1..])
  }

  function LexText(s: string): Option<seq<Event>> {
    var i := LineEnd(s);
    if i == |s| then LexLine(s) else Cat(LexLine(s[..i]), LexText(s[i + 1..]))
  }

  // ---------- building the tree ----------

  /** `explicit` is false for a table that so far exists only as another header's prefix. */
  datatype Node =
    | Leaf(v: Value)
    | Tab(m: map<string, Node>, explicit: bool)
    | Arr(elements: seq<Node>)

  function Get(m: map<string, Node>, k: string): Option<Node> {
    if k in m then Some(m[k]) else None
  }

  datatype Op = Define | Extend | Put(key: string, v: Value)

  /** Apply `op` at the addressed place; None when the standard forbids it there. */
  function Here(n: Option<Node>, op: Op): Option<Node> {
    match op
    case Define =>
      if n.None? then Some(Tab(map[], true))
      else if n.value.Tab? && !n.value.explicit then Some(Tab(n.value.m, true))
      else None
    case Extend =>
      if n.None? then Some(Arr([Tab(map[], true)]))
      else if n.value.Arr? then Some(Arr(n.value.elements + [Tab(map[], true)]))
      else None
    case Put(k, v) =>
      if n.None? then None
      else if n.value.Tab? && k !in n.value.m then Some(Tab(n.value.m[k := Leaf(v)], n.value.explicit))
      else if n.value.Arr? && n.value.elements != [] then
        var es := n.value.elements;
        var last := es[|es| - 1];
        if last.Tab? && k !in last.m
        then Some(Arr(es[..|es| - 1] + [Tab(last.m[k := Leaf(v)], last.explicit)])) else None
      else None
  }

  /** Apply `op` below `n`: a path goes through tables, and through the last element of an
      array of tables; a missing table on the way comes into being. */
  function At(n: Option<Node>, path: seq<string>, op: Op): Option<Node>
    decreases |path|
  {
    if path == [] then Here(n, op)
    else
      var k, rest := path[0], path[1..];
      match n
      case None =>
        (match At(None, rest, op)
         case None => None
         case Some(child) => Some(Tab(map[k := child], false)))
      case Some(Leaf(_)) => None
      case Some(Tab(m, e)) =>
        (match At(Get(m, k), rest, op)
         case None => None
         case Some(child) => Some(Tab(m[k := child], e)))
      case Some(Arr(es)) =>
        if es == [] || !es[|es| - 1].Tab? then None
        else
          var last := es[|es| - 1];
          (match At(Get(last.m, k), rest, op)
           case None => None
           case Some(child) => Some(Arr(es[..|es| - 1] + [Tab(last.m[k := child], last.explicit)])))
  }

  /** The document so far, and the path of the table that pairs now go into. */
  datatype Doc = Bad | Doc(node: Option<Node>, current: seq<string>)

  function Made(n: Option<Node>, current: seq<string>): Doc {
    if n.None? then Bad else Doc(n, current)
  }

  function Step(e: Event, d: Doc): Doc
    requires d.Doc?
  {
    match e
    case Header(path) => Made(At(d.node, path, Define), path)
    case Append(path) => Made(At(d.node, path, Extend), path)
    case Pair(k, v) => Made(At(d.node, d.current, Put(k, v)), d.current)
  }

  function Run(es: seq<Event>, d: Doc): Doc {
    if d.Bad? || es == [] then d else Run(es[1..], Step(es[0], d))
  }

  /** A document's meaning: the tree without the reader's book-keeping. */
  datatype Plain = Atom(v: Value) | Dict(m: map<string, Plain>) | Many(elements: seq<Plain>)

  function Erase(n: Node): Plain {
    match n
    case Leaf(v) => Atom(v)
    case Tab(m, _) => Dict(map k | k in m :: Erase(m[k]))
    case Arr(es) => Many(seq(|es|, i requires 0 <= i < |es| => Erase(es[i])))
  }

  /** Read a whole document; None when it is malformed or defines something twice. */
  function ReadDocument(s: string): Option<Plain> {
    match LexText(s)
    case None => None
    case Some(events) =>
      var d := Run(events, Doc(Some(Tab(map[], true)), []));
      if d.Bad? || d.node.None? then None else Some(Erase(d.node.value))
  }
}
