/**
 The reader of shantytown/context_spend.py: a transcript walked backwards in blocks, against
 splitting the whole of it at newlines; and the record that decides how much context is spent.
 */
module ContextSpend {
  import opened Basics

  type Byte = x: int | 0 <= x < 256

  const NEWLINE: Byte := 10

  // ---------- lines ----------

  /** `split(b"\n")`. */
  function Split(s: seq<Byte>): (lines: seq<seq<Byte>>)
    ensures lines != []
  {
    if s == [] then [[]]
    else
      var rest := Split(s[1..]);
      if s[0] == NEWLINE then [[]] + rest else [[s[0]] + rest[0]] + rest[1..]
  }

  function Join(lines: seq<seq<Byte>>): seq<Byte>
    requires lines != []
  {
    if |lines| == 1 then lines[0] else lines[0] + [NEWLINE] + Join(lines[1..])
  }

  /** Lines hold no newline, and joining them again gives the text: there is one such list, and Split finds it. */
  lemma {:induction false} SplitJoins(s: seq<Byte>)
    ensures Join(Split(s)) == s && forall i | 0 <= i < |Split(s)| :: 10 !in Split(s)[i]
  {
    if s != [] {
      SplitJoins(s[1..]);
      var rest := Split(s[1..]);
      var lines := Split(s);
      if s[0] == NEWLINE {
        assert lines[1..] == rest;
        assert [] + [NEWLINE] + Join(rest) == [s[0]] + s[1..];
      } else {
        assert lines[1..] == rest[1..];
        assert s == [s[0]] + s[1..];
        if |rest| > 1 {
          assert ([s[0]] + rest[0]) + [NEWLINE] + Join(rest[1..]) == [s[0]] + (rest[0] + [NEWLINE] + Join(rest[1..]));
        }
      }
    }
  }

  function Reverse<T>(s: seq<T>): seq<T> {
    if s == [] then [] else Reverse(s[1..]) + [s[0]]
  }

  lemma {:induction false} ReverseAppend<T>(a: seq<T>, b: seq<T>)
    ensures Reverse(a + b) == Reverse(b) + Reverse(a)
  {
    if a == [] {
      assert a + b == b && Reverse(b) + [] == Reverse(b);
    } else {
      assert (a + b)[1..] == a[1..] + b;
      ReverseAppend(a[1..], b);
      assert (Reverse(b) + Reverse(a[1..])) + [a[0]] == Reverse(b) + (Reverse(a[1..]) + [a[0]]);
    }
  }

  lemma SplitStep(c: Byte, s: seq<Byte>)
    ensures Split([c] + s) == if c == NEWLINE then [[]] + Split(s) else [[c] + Split(s)[0]] + Split(s)[1..]
  {
    assert ([c] + s)[1..] == s;
  }

  /** A block read before what has been split only lengthens the first line, or adds lines before it. */
  lemma {:induction false} SplitBlock(block: seq<Byte>, rest: seq<Byte>)
    ensures Split(block + rest) == Split(block + Split(rest)[0]) + Split(rest)[1..]
  {
    hide Split;
    var first := Split(rest)[0];
    if block == [] {
      assert block + rest == rest && block + first == first;
      SplitJoins(rest);
      OneLine(first);
    } else {
      var c, block' := block[0], block[1..];
      assert block + rest == [c] + (block' + rest) && block + first == [c] + (block' + first);
      SplitBlock(block', rest);
      SplitOneMore(c, block' + rest, block' + first, Split(rest)[1..]);
    }
  }

  /** A byte in front goes to the first line only. */
  lemma SplitOneMore(c: Byte, s: seq<Byte>, t: seq<Byte>, others: seq<seq<Byte>>)
    requires Split(s) == Split(t) + others
    ensures Split([c] + s) == Split([c] + t) + others
  {
    hide Split;
    SplitStep(c, s);
    SplitStep(c, t);
    Regroup([[]], Split(t), others);
    FirstGrows(c, Split(t), others);
  }

  lemma Regroup<T>(a: seq<T>, b: seq<T>, c: seq<T>)
    ensures a + (b + c) == (a + b) + c
  {
  }

  lemma FirstGrows(c: Byte, lines: seq<seq<Byte>>, others: seq<seq<Byte>>)
    requires lines != []
    ensures [[c] + (lines + others)[0]] + (lines + others)[1..] == ([[c] + lines[0]] + lines[1..]) + others
  {
    assert (lines + others)[1..] == lines[1..] + others;
    Regroup([[c] + lines[0]], lines[1..], others);
  }

  lemma {:induction false} OneLine(s: seq<Byte>)
    requires NEWLINE !in s
    ensures Split(s) == [s]
  {
    if s != [] {
      OneLine(s[1..]);
      assert s == [s[0]] + s[1..];
    }
  }

  /** The lines last to first; an empty first line is not among them. */
  function LinesBackwards(content: seq<Byte>): seq<seq<Byte>> {
    var lines := Split(content);
    Reverse(if lines[0] == [] then lines[1..] else lines)
  }

  /** `_reverse_lines`, for every block size. */
  method ReverseLines(content: seq<Byte>, block: nat) returns (lines: seq<seq<Byte>>)
    requires block > 0
    ensures lines == LinesBackwards(content)
  {
    hide Split, Reverse, LinesBackwards;
    var offset := |content|;
    var pending: seq<Byte> := [];
    lines := [];
    NothingRead();
    assert content[|content|..] == [];
    while offset > 0
      invariant 0 <= offset <= |content|
      invariant pending == Split(content[offset..])[0]
      invariant lines == Reverse(Split(content[offset..])[1..])
    {
      var size := if offset < block then offset else block;
      ghost var rest := content[offset..];
      offset := offset - size;
      var read := content[offset..offset + size];
      var parts := Split(read + pending);
      assert content[offset..] == read + rest;
      BlockRead(read, rest);
      pending := parts[0];
      lines := lines + Reverse(parts[1..]);
    }
    assert content[0..] == content;
    if pending != [] { lines := lines + [pending]; }
    AllRead(content);
  }

  lemma NothingRead()
    ensures Split([])[0] == [] && Reverse(Split([])[1..]) == []
  {
  }

  lemma BlockRead(read: seq<Byte>, rest: seq<Byte>)
    ensures var parts := Split(read + Split(rest)[0]);
      && Split(read + rest)[0] == parts[0]
      && Reverse(Split(read + rest)[1..]) == Reverse(Split(rest)[1..]) + Reverse(parts[1..])
  {
    hide Split, Reverse;
    SplitBlock(read, rest);
    var parts := Split(read + Split(rest)[0]);
    assert (parts + Split(rest)[1..])[1..] == parts[1..] + Split(rest)[1..];
    ReverseAppend(parts[1..], Split(rest)[1..]);
  }

  lemma AllRead(content: seq<Byte>)
    ensures var lines := Split(content);
      LinesBackwards(content) == if lines[0] == [] then Reverse(lines[1..]) else Reverse(lines[1..]) + [lines[0]]
  {
  }

  // ---------- records ----------

  /** What stands under a key. */
  datatype Field = Missing | Int(n: int) | Other

  /** A usage object that is not empty. */
  datatype Usage = Usage(input: Field, creation: Field, cached: Field)

  /** `last` is None when the record has no `last_token_usage` object. */
  datatype TokenCount = TokenCount(last: Option<Field>, window: Field)

  datatype Entry =
    | Unparsed
    | NotAnObject
    | Entry(sidechain: bool, tokenCount: Option<TokenCount>, usage: Option<Usage>, model: Option<string>)

  datatype Snapshot = Snapshot(consumed: nat, model: Option<string>, window: Option<nat>)

  datatype Verdict = Skip | Decided(snapshot: Option<Snapshot>)

  predicate Countable(f: Field) {
    f.Missing? || (f.Int? && f.n >= 0)
  }

  function Amount(f: Field): nat {
    if f.Int? && f.n >= 0 then f.n else 0
  }

  /** What one record says: nothing, that the occupancy cannot be told, or the occupancy. */
  function Judge(e: Entry): Verdict {
    if !e.Entry? || e.sidechain then Skip
    else if e.tokenCount.Some? then
      var t := e.tokenCount.value;
      if t.last.None? then Skip
      else if t.last.value.Int? && t.last.value.n >= 0 then
        Decided(Some(Snapshot(t.last.value.n, None, if t.window.Int? && t.window.n > 0 then Some(t.window.n)
                                                    else None)))
      else Decided(None)
    else if e.usage.None? then Skip
    else
      var u := e.usage.value;
      if u.input.Missing? || !Countable(u.input) || !Countable(u.creation) || !Countable(u.cached) then Decided(None)
      else Decided(Some(Snapshot(Amount(u.input) + Amount(u.creation) + Amount(u.cached), e.model, None)))
  }

  /** The last line that says anything decides. */
  ghost predicate LastDecides(lines: seq<seq<Byte>>, parse: seq<Byte> -> Entry, result: Option<Snapshot>) {
    || (result.None? && forall i | 0 <= i < |lines| :: Judge(parse(lines[i])).Skip?)
    || exists i | 0 <= i < |lines| :: Judge(parse(lines[i])) == Decided(result) && AllSkipped(lines[i + 1..], parse)
  }

  ghost predicate AllSkipped(lines: seq<seq<Byte>>, parse: seq<Byte> -> Entry) {
    forall j | 0 <= j < |lines| :: Judge(parse(lines[j])).Skip?
  }

  /** A record that says nothing of occupancy: no object, a side conversation, or no count and no usage in it. */
  predicate Silent(e: Entry) {
    || !e.Entry? || e.sidechain
    || (if e.tokenCount.Some? then e.tokenCount.value.last.None? else e.usage.None?)
  }

  predicate Amounts(u: Usage, input: nat, creation: nat, cached: nat) {
    && u.input == Int(input)
    && (u.creation == Int(creation) || (u.creation == Missing && creation == 0))
    && (u.cached == Int(cached) || (u.cached == Missing && cached == 0))
  }

  /** A record that tells this occupancy. A count tells its own input; usage tells input and both cached amounts,
      where only the input must be there. */
  ghost predicate Tells(e: Entry, s: Snapshot) {
    && e.Entry? && !e.sidechain
    && if e.tokenCount.Some? then
         && e.tokenCount.value.last == Some(Int(s.consumed)) && s.model == None
         && (if s.window.Some? then s.window.value > 0 && e.tokenCount.value.window == Int(s.window.value)
             else !e.tokenCount.value.window.Int? || e.tokenCount.value.window.n <= 0)
       else
         && e.usage.Some? && s.model == e.model && s.window == None
         && exists input: nat, creation: nat, cached: nat ::
              Amounts(e.usage.value, input, creation, cached) && s.consumed == input + creation + cached
  }

  lemma JudgeMeans(e: Entry)
    ensures Judge(e).Skip? <==> Silent(e)
    ensures forall s :: Judge(e) == Decided(Some(s)) <==> Tells(e, s)
  {
    forall s ensures Judge(e) == Decided(Some(s)) <==> Tells(e, s) {
      if Judge(e) == Decided(Some(s)) && e.tokenCount.None? {
        var u := e.usage.value;
        assert Amounts(u, Amount(u.input), Amount(u.creation), Amount(u.cached));
      }
    }
  }

  /** What the reader answers: what the last record that is not silent tells; nothing when that one cannot be told
      or when all are silent. */
  ghost predicate LastTells(lines: seq<seq<Byte>>, parse: seq<Byte> -> Entry, result: Option<Snapshot>) {
    if forall line | line in lines :: Silent(parse(line)) then result == None
    else exists i | 0 <= i < |lines| ::
      && !Silent(parse(lines[i])) && (forall j | i < j < |lines| :: Silent(parse(lines[j])))
      && (forall s :: result == Some(s) <==> Tells(parse(lines[i]), s))
  }

  lemma DecidesTells(lines: seq<seq<Byte>>, parse: seq<Byte> -> Entry, result: Option<Snapshot>)
    requires LastDecides(lines, parse, result)
    ensures LastTells(lines, parse, result)
  {
    hide Judge, Silent, Tells;
    forall e: Entry { JudgeMeans(e); }
    if i :| 0 <= i < |lines| && Judge(parse(lines[i])) == Decided(result) && AllSkipped(lines[i + 1..], parse) {
      assert lines[i] in lines;
      forall j | i < j < |lines| ensures Silent(parse(lines[j])) { assert lines[i + 1..][j - i - 1] == lines[j]; }
    }
  }

  /** `_read_snapshot`, once the file is open: an empty line is no JSON. */
  method ReadSnapshot(content: seq<Byte>, block: nat, parse: seq<Byte> -> Entry) returns (snapshot: Option<Snapshot>)
    requires block > 0 && parse([]) == Unparsed
    ensures LastTells(Split(content), parse, snapshot)
  {
    hide LinesBackwards, LastTells;
    var lines := ReverseLines(content, block);
    ghost var all := Split(content);
    for i := 0 to |lines|
      invariant AllSkipped(lines[..i], parse)
    {
      var verdict := Judge(parse(lines[i]));
      if verdict.Decided? {
        FromBehind(content, lines, i, parse, verdict.snapshot);
        DecidesTells(all, parse, verdict.snapshot);
        return verdict.snapshot;
      }
      assert lines[..i + 1] == lines[..i] + [lines[i]];
    }
    assert lines[..|lines|] == lines;
    NobodySpoke(content, lines, parse);
    DecidesTells(all, parse, None);
    return None;
  }

  lemma {:induction false} ReverseAt<T>(s: seq<T>, k: nat)
    requires k < |s|
    ensures |Reverse(s)| == |s| && Reverse(s)[k] == s[|s| - 1 - k]
  {
    if |s| > 1 { ReverseAt(s[1..], if k < |s| - 1 then k else 0); }
  }

  /** The lines backwards, by index. */
  lemma BackwardsAt(content: seq<Byte>)
    ensures var all, lines := Split(content), LinesBackwards(content);
      && |lines| == (if all[0] == [] then |all| - 1 else |all|)
      && forall k | 0 <= k < |lines| :: lines[k] == all[|all| - 1 - k]
  {
    hide Split, Reverse;
    var all, lines := Split(content), LinesBackwards(content);
    var kept := if all[0] == [] then all[1..] else all;
    if kept != [] { ReverseAt(kept, 0); } else { NoLines(); }
    forall k | 0 <= k < |lines| ensures lines[k] == all[|all| - 1 - k] { ReverseAt(kept, k); }
  }

  lemma NoLines()
    ensures Reverse<seq<Byte>>([]) == []
  {
  }

  lemma FromBehind(content: seq<Byte>, lines: seq<seq<Byte>>, i: nat, parse: seq<Byte> -> Entry,
                   result: Option<Snapshot>)
    requires lines == LinesBackwards(content) && i < |lines| && AllSkipped(lines[..i], parse)
    requires Judge(parse(lines[i])) == Decided(result)
    ensures LastDecides(Split(content), parse, result)
  {
    hide Judge, LinesBackwards, Split;
    var all := Split(content);
    BackwardsAt(content);
    var at := |all| - 1 - i;
    var after := all[at + 1..];
    forall j | 0 <= j < |after| ensures Judge(parse(after[j])).Skip? {
      assert after[j] == lines[..i][i - 1 - j];
    }
    assert Judge(parse(all[at])) == Decided(result) && AllSkipped(after, parse);
  }

  lemma NobodySpoke(content: seq<Byte>, lines: seq<seq<Byte>>, parse: seq<Byte> -> Entry)
    requires lines == LinesBackwards(content) && AllSkipped(lines, parse) && parse([]) == Unparsed
    ensures LastDecides(Split(content), parse, None)
  {
    hide LinesBackwards, Split;
    var all := Split(content);
    BackwardsAt(content);
    assert Judge(parse([])).Skip?;
    hide Judge;
    forall j | 0 <= j < |all| ensures Judge(parse(all[j])).Skip? {
      if j > 0 || all[0] != [] { assert lines[|all| - 1 - j] == all[j]; }
    }
  }
}
