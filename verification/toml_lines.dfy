/**
 The reader undoes the writer, one line at a time: keys, paths, values, and then
 each kind of line the writer makes. A key of bare characters ending in a newline is
 written bare, which breaks its line in two: no such line can be read.
 */
module TomlLines {
  import opened Basics
  import opened TomlWriter
  import opened TomlReader

  // ---------- strings ----------

  lemma ShortEscapeReads(x: char, t: string)
    requires ShortEscape(x).Some?
    ensures ReadBasic(['\\', x] + t) == Cons(ShortEscape(x).value, ReadBasic(t))
  {
    hide ShortEscape;
    var e := ['\\', x] + t;
    assert e[0] == '\\' && e[1] == x && e[2..] == t;
  }

  lemma HexEscapeReads(hex: string, t: string)
    requires |hex| == 4 && HexChar(hex).Some?
    ensures ReadBasic(['\\', 'u'] + hex + t) == Cons(HexChar(hex).value, ReadBasic(t))
  {
    hide HexChar;
    var e := ['\\', 'u'] + hex + t;
    assert e[0] == '\\' && e[1] == 'u' && e[2..6] == hex && e[6..] == t;
  }

  lemma PlainCharReads(c: char, t: string)
    requires c != '"' && c != '\\' && c as int >= 0x20 && c as int != 0x7F
    ensures ReadBasic([c] + t) == Cons(c, ReadBasic(t))
  {
    assert ([c] + t)[0] == c && ([c] + t)[1..] == t;
  }

  lemma EscapeCharReads(c: char, t: string)
    ensures ReadBasic(EscapeChar(c) + t) == Cons(c, ReadBasic(t))
  {
    hide ReadBasic, HexChar;
    if |EscapeChar(c)| == 2 {
      var x := EscapeChar(c)[1];
      assert EscapeChar(c) == ['\\', x] && ShortEscape(x) == Some(c);
      ShortEscapeReads(x, t);
    } else if |EscapeChar(c)| == 6 {
      var hex := ['0', '0', HexDigit(c as int / 16), HexDigit(c as int % 16)];
      assert EscapeChar(c) == ['\\', 'u'] + hex;
      HexCharReads(c);
      HexEscapeReads(hex, t);
    } else {
      assert EscapeChar(c) == [c];
      PlainCharReads(c, t);
    }
  }

  lemma HexCharReads(c: char)
    requires c as int < 0x80
    ensures HexChar(['0', '0', HexDigit(c as int / 16), HexDigit(c as int % 16)]) == Some(c)
  {
    hide HexDigit;
    HexDigitReads(c as int / 16);
    HexDigitReads(c as int % 16);
  }

  lemma HexDigitReads(n: nat)
    requires n < 16
    ensures HexValue(HexDigit(n)) == Some(n)
  {
  }

  lemma {:induction false} EscapeReads(s: string, rest: string)
    ensures ReadBasic(EscapeText(s) + "\"" + rest) == Got(s, rest)
  {
    if s == "" {
      assert (EscapeText(s) + "\"" + rest)[1..] == rest;
    } else {
      var t := EscapeText(s[1..]) + "\"" + rest;
      assert EscapeText(s) + "\"" + rest == EscapeChar(s[0]) + t;
      EscapeCharReads(s[0], t);
      EscapeReads(s[1..], rest);
      assert [s[0]] + s[1..] == s;
    }
  }

  lemma EscapedHasNoNewline(s: string)
    ensures '\n' !in EscapeText(s)
  {
  }

  // ---------- keys ----------

  predicate EndsKey(rest: string) {
    && (rest != "" ==> !BareChar(rest[0]))
    && (var t := SkipWs(rest); t != "" ==> t[0] != '.')
  }

  lemma {:induction false} BareRunReads(s: string, rest: string)
    requires AllBare(s) && (rest != "" ==> !BareChar(rest[0]))
    ensures BareRun(s + rest) == |s|
  {
    if s == "" {
      assert s + rest == rest;
    } else {
      assert (s + rest)[1..] == s[1..] + rest;
      BareRunReads(s[1..], rest);
    }
  }

  lemma Slices(a: string, b: string)
    ensures (a + b)[..|a|] == a && (a + b)[|a|..] == b
  {
  }

  lemma BareKeyReads(key: string, rest: string)
    requires key != "" && AllBare(key) && (rest != "" ==> !BareChar(rest[0]))
    ensures ReadKey(key + rest) == Got(key, rest)
  {
    hide BareRun, ReadBasic;
    BareRunReads(key, rest);
    Slices(key, rest);
    assert BareChar(key[0]);
  }

  lemma QuotedKeyReads(key: string, rest: string)
    ensures ReadKey("\"" + (EscapeText(key) + "\"" + rest)) == Got(key, rest)
  {
    hide BareRun, ReadBasic, EscapeText;
    EscapeReads(key, rest);
    Slices("\"", EscapeText(key) + "\"" + rest);
  }

  lemma KeyReads(key: string, rest: string)
    requires !TrickyKey(key) && (rest != "" ==> !BareChar(rest[0]))
    ensures ReadKey(KeyText(key) + rest) == Got(key, rest)
  {
    hide ReadKey, EscapeText;
    if BareMatch(key) {
      BareKeyReads(key, rest);
    } else {
      QuotedKeyReads(key, rest);
      assert KeyText(key) + rest == "\"" + (EscapeText(key) + "\"" + rest);
    }
  }

  ghost predicate Clean(path: seq<string>) {
    forall i | 0 <= i < |path| :: !TrickyKey(path[i])
  }

  lemma KeyTextStarts(key: string)
    ensures KeyText(key) != ""
    ensures var c := KeyText(key)[0]; c == '"' || BareChar(c)
  {
  }

  lemma PathStep(s: string, key: string, more: string)
    requires ReadKey(s) == Got(key, "." + more) && more != "" && !IsWs(more[0])
    ensures ReadPath(s) == Cons(key, ReadPath(more))
  {
    assert ("." + more)[1..] == more;
  }

  lemma PathEnd(s: string, key: string, rest: string)
    requires ReadKey(s) == Got(key, rest) && EndsKey(rest)
    ensures ReadPath(s) == Got([key], rest)
  {
  }

  lemma {:induction false} PathReads(path: seq<string>, rest: string)
    requires path != [] && Clean(path) && EndsKey(rest)
    ensures ReadPath(PathText(path) + rest) == Got(path, rest)
  {
    hide ReadPath, ReadKey, KeyText;
    if |path| == 1 {
      KeyReads(path[0], rest);
      PathEnd(PathText(path) + rest, path[0], rest);
      assert path == [path[0]];
    } else {
      var more := PathText(path[1..]) + rest;
      assert PathText(path) + rest == KeyText(path[0]) + ("." + more);
      KeyReads(path[0], "." + more);
      PathTextStarts(path[1..]);
      PathReads(path[1..], rest);
      PathStep(PathText(path) + rest, path[0], more);
      assert [path[0]] + path[1..] == path;
    }
  }

  lemma PathTextStarts(path: seq<string>)
    requires path != []
    ensures PathText(path) != ""
    ensures var c := PathText(path)[0]; c == '"' || BareChar(c)
  {
    KeyTextStarts(path[0]);
  }

  // ---------- integers ----------

  predicate Decimal(t: string) {
    t != "" && (forall i | 0 <= i < |t| :: IsDigit(t[i])) && (|t| > 1 ==> t[0] != '0')
  }

  lemma {:induction false} NatTextReads(n: nat)
    ensures Decimal(NatText(n)) && NatValue(NatText(n)) == n && (n > 0 ==> NatText(n)[0] != '0')
  {
    if n >= 10 {
      NatTextReads(n / 10);
      var t, d := NatText(n / 10), ["0123456789"[n % 10]];
      Slices(t, d);
      assert NatText(n) == t + d;
      assert d[0] as int - '0' as int == n % 10;
    }
  }

  lemma {:induction false} DigitRunReads(s: string, rest: string)
    requires (forall i | 0 <= i < |s| :: IsDigit(s[i])) && (rest != "" ==> !IsDigit(rest[0]))
    ensures DigitRun(s + rest) == |s|
  {
    if s == "" {
      assert s + rest == rest;
    } else {
      assert (s + rest)[1..] == s[1..] + rest;
      DigitRunReads(s[1..], rest);
    }
  }

  lemma UnsignedReads(t: string, rest: string)
    requires Decimal(t) && (rest != "" ==> !IsDigit(rest[0]))
    ensures ReadInt(t + rest) == Got(Int(NatValue(t)), rest)
  {
    hide DigitRun, NatValue;
    DigitRunReads(t, rest);
    Slices(t, rest);
    assert (t + rest)[0] == t[0];
  }

  lemma NegativeReads(t: string, rest: string)
    requires Decimal(t) && (rest != "" ==> !IsDigit(rest[0]))
    ensures ReadInt("-" + (t + rest)) == Got(Int(-(NatValue(t) as int)), rest)
  {
    hide DigitRun, NatValue;
    DigitRunReads(t, rest);
    Slices(t, rest);
    Slices("-", t + rest);
    assert (t + rest)[0] == t[0];
  }

  lemma IntReads(n: int, rest: string)
    requires rest != "" ==> !IsDigit(rest[0])
    ensures ReadInt(IntText(n) + rest) == Got(Int(n), rest)
  {
    hide ReadInt, NatText, NatValue, Decimal;
    var magnitude: nat := if n < 0 then -n else n;
    var t := NatText(magnitude);
    NatTextReads(magnitude);
    if n < 0 {
      NegativeReads(t, rest);
      assert IntText(n) == "-" + t;
      assert ("-" + t) + rest == "-" + (t + rest);
    } else {
      UnsignedReads(t, rest);
    }
  }

  // ---------- values ----------

  predicate EndsValue(rest: string) {
    rest != "" ==> !IsDigit(rest[0])
  }

  lemma ValueTextStarts(v: Value)
    requires Inline(v)
    ensures var t := ValueText(v);
      t != "" && !IsWs(t[0]) && t[0] != ']' && t[0] != ','
  {
    if v.Int? {
      NatTextReads(if v.n < 0 then -v.n else v.n);
    }
  }

  lemma BoolReads(b: bool, rest: string)
    ensures ReadValue(ValueText(Bool(b)) + rest) == Got(Bool(b), rest)
  {
    if b {
      assert ("true" + rest)[..4] == "true" && ("true" + rest)[4..] == rest;
    } else {
      assert ("false" + rest)[..5] == "false" && ("false" + rest)[5..] == rest;
      assert ("false" + rest)[0] == 'f';
    }
  }

  lemma NumberReads(s: string)
    requires s != "" && (IsDigit(s[0]) || s[0] == '-')
    ensures ReadValue(s) == ReadInt(s)
  {
  }

  lemma StringReads(s: string)
    ensures ReadValue("\"" + s) ==
      match ReadBasic(s) { case Fail => Fail case Got(t, rest) => Got(Str(t), rest) }
  {
    assert ("\"" + s)[1..] == s;
  }

  lemma ArrayReads(s: string)
    ensures ReadValue("[" + s) ==
      match ReadItems(s) { case Fail => Fail case Got(vs, rest) => Got(List(vs), rest) }
  {
    assert ("[" + s)[1..] == s;
  }

  lemma {:induction false} ValueReads(v: Value, rest: string)
    requires Inline(v) && EndsValue(rest)
    ensures ReadValue(ValueText(v) + rest) == Got(v, rest)
    decreases v, 1
  {
    hide ReadValue, ReadInt, ReadBasic, ReadItems, EscapeText, ItemsText, NatText;
    match v
    case Bool(b) => BoolReads(b, rest);
    case Int(n) =>
      IntReads(n, rest);
      NatTextReads(if n < 0 then -n else n);
      NumberReads(IntText(n) + rest);
    case Str(t) =>
      EscapeReads(t, rest);
      StringReads(EscapeText(t) + "\"" + rest);
      assert ValueText(v) + rest == "\"" + (EscapeText(t) + "\"" + rest);
    case List(items) =>
      ItemsRead(items, rest);
      ArrayReads(ItemsText(items) + "]" + rest);
      assert ValueText(v) + rest == "[" + (ItemsText(items) + "]" + rest);
  }

  lemma {:induction false} ItemsRead(vs: seq<Value>, rest: string)
    requires InlineAll(vs)
    ensures ReadItems(ItemsText(vs) + "]" + rest) == Got(vs, rest)
    decreases vs, 0
  {
    hide ReadValue, ReadItems, ValueText, SkipWs;
    if vs == [] {
      NoItems(rest);
      assert ItemsText(vs) + "]" + rest == "]" + rest;
    } else if |vs| == 1 {
      assert ItemsText(vs) + "]" + rest == ValueText(vs[0]) + ("]" + rest);
      ItemReads(vs[0], ']', rest);
      assert vs == [vs[0]];
    } else {
      var more := ItemsText(vs[1..]) + "]" + rest;
      assert ItemsText(vs) + "]" + rest == ValueText(vs[0]) + ("," + (" " + more));
      ItemReads(vs[0], ',', " " + more);
      ItemsSkipBlank(more);
      ItemsRead(vs[1..], rest);
      assert [vs[0]] + vs[1..] == vs;
    }
  }

  lemma NoItems(rest: string)
    ensures ReadItems("]" + rest) == Got([], rest)
  {
    assert ("]" + rest)[0] == ']' && ("]" + rest)[1..] == rest;
  }

  lemma ItemReads(v: Value, end: char, more: string)
    requires Inline(v) && (end == ',' || end == ']')
    ensures ReadItems(ValueText(v) + ([end] + more)) == if end == ',' then Cons(v, ReadItems(more)) else Got([v], more)
    decreases v, 2
  {
    hide ReadValue, ValueText;
    ValueTextStarts(v);
    ValueReads(v, [end] + more);
    assert ([end] + more)[0] == end && ([end] + more)[1..] == more;
    assert (ValueText(v) + ([end] + more))[0] == ValueText(v)[0];
  }

  lemma ItemsSkipBlank(s: string)
    ensures ReadItems(" " + s) == ReadItems(s)
  {
    assert (" " + s)[1..] == s;
    assert SkipWs(" " + s) == SkipWs(s);
  }

  // ---------- lines ----------

  lemma HeaderLineReads(path: seq<string>)
    requires path != [] && Clean(path)
    ensures LexLine(HeaderLine(path)) == Some([Header(path)])
  {
    hide ReadPath, PathText;
    var s := HeaderLine(path);
    PathTextStarts(path);
    assert s[1..] == PathText(path) + "]";
    assert !("[[" <= s) by { assert s[1] == PathText(path)[0]; }
    PathReads(path, "]");
  }

  lemma ArrayLineReads(path: seq<string>)
    requires path != [] && Clean(path)
    ensures LexLine(ArrayLine(path)) == Some([Append(path)])
  {
    hide ReadPath, PathText;
    var t := PathText(path) + "]]";
    PathTextStarts(path);
    PathReads(path, "]]");
    assert ArrayLine(path) == "[[" + t;
    assert ("[[" + t)[2..] == t;
  }

  lemma PairLineReads(key: string, v: Value)
    requires Inline(v) && !TrickyKey(key)
    ensures LexLine(PairLine(key, v)) == Some([Pair(key, v)])
  {
    hide ReadPath, ReadValue, KeyText, ValueText;
    var s := PairLine(key, v);
    var value := ValueText(v);
    KeyTextStarts(key);
    ValueTextStarts(v);
    var after := " = " + value;
    assert s == PathText([key]) + after;
    assert SkipWs(after) == "= " + value by { assert after[1..] == "= " + value; }
    PathReads([key], after);
    assert ("= " + value)[1..] == " " + value;
    assert SkipWs(" " + value) == value by { assert (" " + value)[1..] == value; }
    assert value + "" == value;
    ValueReads(v, "");
  }

  // ---------- lines broken by a tricky key ----------

  /** The writer's text of a path, cut at the first newline inside it. */
  lemma {:induction false} TrickyPathBreaks(path: seq<string>) returns (head: string, tail: string, front: seq<string>)
    requires !Clean(path)
    ensures PathText(path) == head + "\n" + tail && '\n' !in head
    ensures front != [] && Clean(front) && head == PathText(front)
  {
    hide KeyText;
    if TrickyKey(path[0]) {
      var n := |path[0]| - 1;
      head, front := path[0][..n], [path[0][..n]];
      assert path[0] == head + "\n";
      tail := if |path| == 1 then "" else "." + PathText(path[1..]);
      BareIsItsOwnText(head);
      TrickyIsItsOwnText(path[0]);
    } else {
      assert !Clean(path[1..]) by {
        var i :| 0 <= i < |path| && TrickyKey(path[i]);
        assert path[1..][i - 1] == path[i];
      }
      var h, t, f := TrickyPathBreaks(path[1..]);
      head, tail, front := KeyText(path[0]) + "." + h, t, [path[0]] + f;
      assert front[1..] == f;
      KeyHasNoNewline(path[0]);
      assert PathText(path) == KeyText(path[0]) + "." + PathText(path[1..]);
    }
  }

  lemma TrickyIsItsOwnText(key: string)
    requires TrickyKey(key)
    ensures KeyText(key) == key
  {
  }

  lemma BareIsItsOwnText(key: string)
    requires key != "" && AllBare(key)
    ensures !TrickyKey(key) && KeyText(key) == key && '\n' !in key
  {
    assert BareChar(key[|key| - 1]);
  }

  lemma KeyHasNoNewline(key: string)
    requires !TrickyKey(key)
    ensures '\n' !in KeyText(key)
  {
    EscapedHasNoNewline(key);
  }

  lemma {:induction false} PathHasNoNewline(path: seq<string>)
    requires Clean(path)
    ensures '\n' !in PathText(path)
  {
    if path != [] {
      KeyHasNoNewline(path[0]);
      PathHasNoNewline(path[1..]);
    }
  }

  lemma {:induction false} ValueHasNoNewline(v: Value)
    requires Inline(v)
    ensures '\n' !in ValueText(v)
    decreases v, 1
  {
    match v
    case Bool(_) =>
    case Int(n) => NatTextReads(if n < 0 then -n else n);
    case Str(s) => EscapedHasNoNewline(s);
    case List(items) => ItemsHaveNoNewline(items);
  }

  lemma {:induction false} ItemsHaveNoNewline(vs: seq<Value>)
    requires InlineAll(vs)
    ensures '\n' !in ItemsText(vs)
    decreases vs, 0
  {
    if vs != [] {
      ValueHasNoNewline(vs[0]);
      ItemsHaveNoNewline(vs[1..]);
    }
  }

  // ---------- text and lines ----------

  lemma {:induction false} LineEndOfLine(line: string, rest: string)
    requires '\n' !in line
    ensures LineEnd(line) == |line|
    ensures LineEnd(line + "\n" + rest) == |line|
  {
    if line == "" {
    } else {
      assert '\n' !in line[1..];
      LineEndOfLine(line[1..], rest);
      assert (line + "\n" + rest)[1..] == line[1..] + "\n" + rest;
    }
  }

  lemma LexOneLine(line: string)
    requires '\n' !in line
    ensures LexText(line) == LexLine(line)
  {
    LineEndOfLine(line, "");
  }

  lemma CatAssociative(a: Option<seq<Event>>, b: Option<seq<Event>>, c: Option<seq<Event>>)
    ensures Cat(Cat(a, b), c) == Cat(a, Cat(b, c))
  {
    if a.Some? && b.Some? && c.Some? {
      assert (a.value + b.value) + c.value == a.value + (b.value + c.value);
    }
  }

  lemma {:induction false} LexJoin(a: string, b: string)
    ensures LexText(a + "\n" + b) == Cat(LexText(a), LexText(b))
    decreases |a|
  {
    var i := LineEnd(a);
    if i == |a| {
      assert a == a[..i];
      LineEndOfLine(a, b);
      assert (a + "\n" + b)[..i] == a && (a + "\n" + b)[i + 1..] == b;
    } else {
      var rest := a[i + 1..];
      assert a == a[..i] + "\n" + rest;
      assert a + "\n" + b == a[..i] + "\n" + (rest + "\n" + b);
      LineEndOfLine(a[..i], rest + "\n" + b);
      var whole := a + "\n" + b;
      assert whole[..i] == a[..i] && whole[i + 1..] == rest + "\n" + b;
      LexJoin(rest, b);
      CatAssociative(LexLine(a[..i]), LexText(rest), LexText(b));
    }
  }

  /** What the text of these lines reads as. A line may itself hold a newline. */
  function LexLines(lines: seq<string>): Option<seq<Event>> {
    if lines == [] then Some([]) else Cat(LexText(lines[0]), LexLines(lines[1..]))
  }

  lemma {:induction false} LexLinesAppend(a: seq<string>, b: seq<string>)
    ensures LexLines(a + b) == Cat(LexLines(a), LexLines(b))
  {
    if a == [] {
      assert a + b == b;
      if LexLines(b).Some? { assert [] + LexLines(b).value == LexLines(b).value; }
    } else {
      assert (a + b)[1..] == a[1..] + b;
      LexLinesAppend(a[1..], b);
      CatAssociative(LexText(a[0]), LexLines(a[1..]), LexLines(b));
    }
  }

  lemma {:induction false} LexJoinedLines(lines: seq<string>)
    ensures LexText(Join(lines)) == LexLines(lines)
  {
    if lines == [] {
    } else if |lines| == 1 {
      var r := LexText(lines[0]);
      if r.Some? { assert r.value + [] == r.value; }
    } else {
      LexJoin(lines[0], Join(lines[1..]));
      LexJoinedLines(lines[1..]);
    }
  }

  lemma BlankFirst(s: string)
    ensures LexText("\n" + s) == LexText(s)
  {
    LexJoin("", s);
    assert "" + "\n" + s == "\n" + s;
    if LexText(s).Some? { assert [] + LexText(s).value == LexText(s).value; }
  }

  lemma BlankLast(s: string)
    ensures LexText(s + "\n") == LexText(s)
  {
    LexJoin(s, "");
    assert s + "\n" + "" == s + "\n";
    if LexText(s).Some? { assert LexText(s).value + [] == LexText(s).value; }
  }

  lemma {:induction false} LexStripLeft(s: string)
    ensures LexText(StripLeft(s)) == LexText(s)
  {
    hide LexText;
    if s != "" && s[0] == '\n' {
      BlankFirst(s[1..]);
      assert s == "\n" + s[1..];
      LexStripLeft(s[1..]);
    }
  }

  lemma {:induction false} LexStripRight(s: string)
    ensures LexText(StripRight(s)) == LexText(s)
  {
    hide LexText;
    if s != "" && s[|s| - 1] == '\n' {
      BlankLast(s[..|s| - 1]);
      assert s == s[..|s| - 1] + "\n";
      LexStripRight(s[..|s| - 1]);
    }
  }
}
