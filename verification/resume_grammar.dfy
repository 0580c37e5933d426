/** What the patterns of shantytown/deferrals.py match, said of the text itself. */
module ResumeGrammar {
  import opened Basics
  import opened TextStrip
  import opened ResumeMarkers
  import opened ResumeMarkerProofs
  import opened DeferralNotes
  import opened DeferralParsed

  /** The word, with small or capital letters. */
  predicate Spells(s: string, word: string) {
    |s| == |word| && forall i | 0 <= i < |s| ::
      s[i] == word[i] || ('A' <= s[i] <= 'Z' && s[i] as int + 32 == word[i] as int)
  }

  predicate Small(s: string) {
    forall i | 0 <= i < |s| :: 'a' <= s[i] <= 'z' || s[i] == '-'
  }

  /** `resume[_ -]?when\s*[:=]` before the rest. */
  predicate MarkerParts(s: string, a: string, joiner: string, b: string, blanks: string, sep: char, rest: string) {
    && s == a + (joiner + (b + (blanks + ([sep] + rest))))
    && Spells(a, "resume") && (joiner == "" || joiner == "_" || joiner == " " || joiner == "-")
    && Spells(b, "when") && AllSpace(blanks) && (sep == ':' || sep == '=')
  }

  lemma SmallLower(c: char, w: char)
    requires 'a' <= w <= 'z'
    ensures Lower(c) == w <==> c == w || ('A' <= c <= 'Z' && c as int + 32 == w as int)
  {
  }

  lemma {:induction false} WordSpelled(w: string, a: string, x: string)
    requires Spells(a, w) && Small(w) && '-' !in w
    ensures Word(w, a + x) == Some(x)
  {
    if w == "" {
      assert a + x == x;
    } else {
      assert (a + x)[0] == a[0] && (a + x)[1..] == a[1..] + x;
      assert w[0] in w;
      SmallLower(a[0], w[0]);
      WordSpelled(w[1..], a[1..], x);
    }
  }

  lemma WordParts(w: string, s: string) returns (a: string)
    requires Word(w, s).Some? && Small(w) && '-' !in w
    ensures Spells(a, w) && s == a + Word(w, s).value
  {
    WordShape(w, s);
    a := s[..|w|];
    forall i | 0 <= i < |a| ensures a[i] == w[i] || ('A' <= a[i] <= 'Z' && a[i] as int + 32 == w[i] as int) {
      assert w[i] in w;
      SmallLower(a[i], w[i]);
    }
  }

  lemma {:induction false} SpacesSkipped(blanks: string, x: string)
    requires AllSpace(blanks) && x != "" && !IsSpace(x[0])
    ensures SkipSpace(blanks + x) == x
  {
    if blanks == "" {
      assert blanks + x == x;
    } else {
      assert (blanks + x)[1..] == blanks[1..] + x;
      SpacesSkipped(blanks[1..], x);
    }
  }

  lemma OnlySmall()
    ensures Small("resume") && Small("when") && '-' !in "resume" && '-' !in "when"
  {
  }

  lemma PartsGiveMarker(s: string, a: string, joiner: string, b: string, blanks: string, sep: char, rest: string)
    requires MarkerParts(s, a, joiner, b, blanks, sep, rest)
    ensures MarkerAt(s) == Some(rest)
  {
    hide Word, SkipSpace;
    OnlySmall();
    var d := [sep] + rest;
    var c := b + (blanks + d);
    WordSpelled("resume", a, joiner + c);
    assert SkipJoiner(joiner + c) == c by {
      assert c[0] == b[0] && (b[0] == 'w' || b[0] == 'W');
      if joiner == "" {
        assert joiner + c == c; } else { assert (joiner + c)[0] == joiner[0] && (joiner + c)[1..] == c;
      }
    }
    WordSpelled("when", b, blanks + d);
    SpacesSkipped(blanks, d);
    assert d[0] == sep && d[1..] == rest;
  }

  lemma MarkerGivesParts(s: string)
    returns (a: string, joiner: string, b: string, blanks: string, sep: char)
    requires MarkerAt(s).Some?
    ensures MarkerParts(s, a, joiner, b, blanks, sep, MarkerAt(s).value)
  {
    hide Word, SkipSpace;
    OnlySmall();
    a := WordParts("resume", s);
    var x := Word("resume", s).value;
    var y := SkipJoiner(x);
    joiner := x[..|x| - |y|];
    assert x == joiner + y;
    b := WordParts("when", y);
    var z := Word("when", y).value;
    blanks := LeftOf(z);
    var d := SkipSpace(z);
    sep := d[0];
    assert d == [sep] + d[1..];
  }

  /** A marker stands at the start of a text exactly when the text has these parts. */
  lemma MarkerExactly(s: string, rest: string)
    ensures MarkerAt(s) == Some(rest) <==>
      exists a, joiner, b, blanks, sep :: MarkerParts(s, a, joiner, b, blanks, sep, rest)
  {
    if MarkerAt(s) == Some(rest) {
      var a, joiner, b, blanks, sep := MarkerGivesParts(s);
    }
    if a, joiner, b, blanks, sep :| MarkerParts(s, a, joiner, b, blanks, sep, rest) {
      PartsGiveMarker(s, a, joiner, b, blanks, sep, rest);
    }
  }

  // ---------- the condition after a marker ----------

  predicate Letters(s: string) {
    forall i | 0 <= i < |s| :: 'a' <= s[i] <= 'z' || 'A' <= s[i] <= 'Z' || s[i] == '-'
  }

  predicate NoSpace(s: string) {
    forall i | 0 <= i < |s| :: !IsSpace(s[i])
  }

  predicate OnlyTrailers(s: string) {
    forall i | 0 <= i < |s| :: s[i] == '.' || s[i] == ',' || s[i] == ';' || s[i] == ')'
  }

  /** `\s*([a-z-]+)\s*:\s*(\S+)` and what follows, with the argument's closing punctuation apart. */
  datatype Parts = Parts(before: string, kind: string, between: string, after: string, arg: string, closing: string,
                         tail: string)

  predicate ConditionParts(s: string, p: Parts) {
    && s == p.before + (p.kind + (p.between + ([':'] + (p.after + (p.arg + p.closing + p.tail)))))
    && AllSpace(p.before) && AllSpace(p.between) && AllSpace(p.after)
    && p.kind != "" && Letters(p.kind) && p.arg + p.closing != "" && NoSpace(p.arg + p.closing)
    && OnlyTrailers(p.closing) && (p.arg != "" ==> !OnlyTrailers([p.arg[|p.arg| - 1]]))
    && (p.tail != "" ==> IsSpace(p.tail[0]))
  }

  lemma LettersAreKind(c: char)
    ensures KindChar(c) <==> 'a' <= c <= 'z' || 'A' <= c <= 'Z' || c == '-'
  {
  }

  lemma {:induction false} KindRunIs(kind: string, x: string)
    requires Letters(kind) && (x != "" ==> !KindChar(x[0]))
    ensures KindRun(kind + x) == |kind|
  {
    if kind == "" {
      assert kind + x == x;
    } else {
      LettersAreKind(kind[0]);
      assert (kind + x)[1..] == kind[1..] + x;
      KindRunIs(kind[1..], x);
    }
  }

  lemma {:induction false} ArgRunIs(run: string, tail: string)
    requires NoSpace(run) && (tail != "" ==> IsSpace(tail[0]))
    ensures ArgRun(run + tail) == |run|
  {
    if run == "" {
      assert run + tail == tail;
    } else {
      assert (run + tail)[1..] == run[1..] + tail;
      ArgRunIs(run[1..], tail);
    }
  }

  lemma {:induction false} KindRunStops(s: string)
    ensures KindRun(s) < |s| ==> !KindChar(s[KindRun(s)])
    ensures Letters(s[..KindRun(s)])
  {
    if s != "" && KindChar(s[0]) {
      KindRunStops(s[1..]);
      LettersAreKind(s[0]);
      assert s[1..][..KindRun(s) - 1] == s[1..KindRun(s)];
      forall i | 0 < i < KindRun(s) ensures 'a' <= s[i] <= 'z' || 'A' <= s[i] <= 'Z' || s[i] == '-' {
        assert s[1..][..KindRun(s) - 1][i - 1] == s[i];
      }
    }
  }

  lemma {:induction false} ArgRunStops(s: string)
    ensures ArgRun(s) < |s| ==> IsSpace(s[ArgRun(s)])
  {
    if s != "" && !IsSpace(s[0]) { ArgRunStops(s[1..]); }
  }

  lemma PartsGiveKind(s: string, p: Parts)
    requires ConditionParts(s, p)
    ensures KindAt(s) == Some((p.kind, p.arg + p.closing + p.tail))
    ensures (p.arg + p.closing + p.tail)[..ArgRun(p.arg + p.closing + p.tail)] == p.arg + p.closing
  {
    hide KindRun, ArgRun, SkipSpace;
    var run := p.arg + p.closing;
    var u := run + p.tail;
    var colon := [':'] + (p.after + u);
    var t := p.kind + (p.between + colon);
    LettersAreKind(p.kind[0]);
    assert !IsSpace(t[0]) && t[0] == p.kind[0];
    SpacesSkipped(p.before, t);
    var x := p.between + colon;
    assert x[0] == if p.between == "" then ':' else p.between[0];
    assert !KindChar(x[0]);
    KindRunIs(p.kind, x);
    assert t[..|p.kind|] == p.kind && t[|p.kind|..] == x;
    SpacesSkipped(p.between, colon);
    assert colon[0] == ':' && colon[1..] == p.after + u;
    assert u[0] == run[0];
    SpacesSkipped(p.after, u);
    ArgRunIs(run, p.tail);
    assert u[..|run|] == run;
  }

  lemma TrimIs(arg: string, closing: string)
    requires OnlyTrailers(closing) && (arg != "" ==> !OnlyTrailers([arg[|arg| - 1]]))
    ensures Trim(arg + closing) == arg
  {
    assert (arg + closing)[|arg|..] == closing;
    assert AllTrailers(closing);
    if arg != "" { assert !Trailer(arg[|arg| - 1]); }
    TrimUnique(arg + closing, arg);
  }

  /** The argument, its closing punctuation, and what follows the first blank. */
  lemma ArgParts(u: string) returns (arg: string, closing: string, tail: string)
    requires u != "" && !IsSpace(u[0])
    ensures u == arg + closing + tail && arg == Trim(u[..ArgRun(u)])
    ensures arg + closing != "" && NoSpace(arg + closing) && (tail != "" ==> IsSpace(tail[0]))
    ensures OnlyTrailers(closing) && (arg != "" ==> !OnlyTrailers([arg[|arg| - 1]]))
  {
    hide ArgRun, Trim;
    ArgRunShape(u);
    ArgRunStops(u);
    FirstRuns(u);
    var run := u[..ArgRun(u)];
    tail := u[ArgRun(u)..];
    TrimShape(run);
    arg := Trim(run);
    closing := run[|arg|..];
    assert arg == run[..|arg|] && run == arg + closing && u == run + tail;
    if arg != "" { assert !Trailer(arg[|arg| - 1]) && [arg[|arg| - 1]][0] == arg[|arg| - 1]; }
  }

  lemma KindGivesParts(s: string) returns (p: Parts)
    requires KindAt(s).Some?
    ensures ConditionParts(s, p) && p.kind == KindAt(s).value.0
    ensures p.arg == Trim(KindAt(s).value.1[..ArgRun(KindAt(s).value.1)])
  {
    hide KindRun, ArgRun, SkipSpace, Trim, OnlyTrailers, NoSpace;
    var t := SkipSpace(s);
    var before := LeftOf(s);
    KindRunStops(t);
    var kind, x := t[..KindRun(t)], t[KindRun(t)..];
    assert t == kind + x;
    var colon := SkipSpace(x);
    var between := LeftOf(x);
    var y := colon[1..];
    assert colon == [':'] + y;
    var u := SkipSpace(y);
    var after := LeftOf(y);
    var arg, closing, tail := ArgParts(u);
    p := Parts(before, kind, between, after, arg, closing, tail);
  }

  lemma FirstRuns(u: string)
    requires u != "" && !IsSpace(u[0])
    ensures ArgRun(u) > 0
  {
  }

  /** A marker stands at the start, and after it a condition of these parts. */
  predicate StatedBy(s: string, rest: string, p: Parts, c: Condition) {
    MarkerAt(s) == Some(rest) && ConditionParts(rest, p) && Spells(p.kind, c.kind) && Small(c.kind) && c.arg == p.arg
  }

  /** A condition stands at the start of a text exactly when a marker does and these parts follow it; its kind is
      in small letters and its argument without closing punctuation. */
  lemma ConditionExactly(s: string, c: Condition)
    ensures ConditionAt(s) == Some(c) <==>
      exists rest, p :: StatedBy(s, rest, p, c)
  {
    hide MarkerAt, KindAt, Trim, ArgRun, ConditionParts;
    if ConditionAt(s) == Some(c) {
      var rest := MarkerAt(s).value;
      var p := KindGivesParts(rest);
      KindSpelled(rest, p, c.kind);
      assert StatedBy(s, rest, p, c);
    }
    if rest, p :| StatedBy(s, rest, p, c) {
      PartsGiveKind(rest, p);
      KindSpelled(rest, p, c.kind);
      TrimIs(p.arg, p.closing) by { PartsTrim(rest, p); }
    }
  }

  lemma PartsTrim(s: string, p: Parts)
    requires ConditionParts(s, p)
    ensures OnlyTrailers(p.closing) && (p.arg != "" ==> !OnlyTrailers([p.arg[|p.arg| - 1]]))
  {
  }

  lemma KindSpelled(s: string, p: Parts, small: string)
    requires ConditionParts(s, p)
    ensures LowerAll(p.kind) == small <==> Spells(p.kind, small) && Small(small)
  {
    LowerIsSmall(p.kind, small);
  }

  lemma {:induction false} LowerAllAt(s: string)
    ensures |LowerAll(s)| == |s| && forall i | 0 <= i < |s| :: LowerAll(s)[i] == Lower(s[i])
  {
    if s != "" { LowerAllAt(s[1..]); }
  }

  lemma LetterLower(c: char, w: char)
    requires KindChar(c)
    ensures Lower(c) == w <==>
      (c == w || ('A' <= c <= 'Z' && c as int + 32 == w as int)) && ('a' <= w <= 'z' || w == '-')
  {
  }

  lemma LowerIsSmall(kind: string, small: string)
    requires Letters(kind)
    ensures LowerAll(kind) == small <==> Spells(kind, small) && Small(small)
  {
    LowerAllAt(kind);
    hide LowerAll;
    if |kind| == |small| {
      forall i | 0 <= i < |kind|
        ensures LowerAll(kind)[i] == small[i] <==>
          (kind[i] == small[i] || ('A' <= kind[i] <= 'Z' && kind[i] as int + 32 == small[i] as int))
          && ('a' <= small[i] <= 'z' || small[i] == '-') {
        LettersAreKind(kind[i]);
        LetterLower(kind[i], small[i]);
      }
    }
  }

  predicate NoneBefore(s: string, i: nat)
    requires i <= |s|
  {
    forall j: nat | j < i :: ConditionAt(s[j..]).None?
  }

  lemma NoneBeforeNext(s: string, i: nat)
    requires i < |s|
    ensures NoneBefore(s, i + 1) <==> ConditionAt(s).None? && NoneBefore(s[1..], i)
  {
    hide ConditionAt;
    assert s[0..] == s;
    if NoneBefore(s, i + 1) {
      forall j: nat | j < i ensures ConditionAt(s[1..][j..]).None? { assert s[1..][j..] == s[j + 1..]; }
    }
    if ConditionAt(s).None? && NoneBefore(s[1..], i) {
      forall j: nat | j < i + 1 ensures ConditionAt(s[j..]).None? {
        if j > 0 { assert s[1..][j - 1..] == s[j..]; }
      }
    }
  }

  /** This condition stands at `i`, and none before. */
  predicate FirstAt(s: string, i: nat, c: Condition) {
    i < |s| && ConditionAt(s[i..]) == Some(c) && NoneBefore(s, i)
  }

  lemma FirstAtNext(s: string, i: nat, c: Condition)
    requires s != ""
    ensures FirstAt(s, i + 1, c) <==> ConditionAt(s).None? && FirstAt(s[1..], i, c)
    ensures FirstAt(s, 0, c) <==> ConditionAt(s) == Some(c)
  {
    hide ConditionAt, NoneBefore;
    assert s[0..] == s && NoneBefore(s, 0) by { NoneBeforeFirst(s); }
    if i < |s| {
      NoneBeforeNext(s, i);
      assert s[1..][i..] == s[i + 1..];
    }
  }

  lemma NoneBeforeFirst(s: string)
    ensures NoneBefore(s, 0)
  {
  }

  lemma ParseStep(s: string)
    ensures ParseCondition("") == None
    ensures s != "" ==>
      ParseCondition(s) == if ConditionAt(s).Some? then ConditionAt(s) else ParseCondition(s[1..])
  {
    hide ConditionAt;
  }

  /** The condition of a text is the first that stands in it. */
  lemma {:induction false} FirstCondition(s: string, c: Condition)
    ensures ParseCondition(s) == Some(c) <==> exists i :: FirstAt(s, i, c)
    decreases |s|
  {
    ParseStep(s);
    NowhereEmpty(c);
    hide ConditionAt, FirstAt, ParseCondition;
    if s != "" {
      FirstCondition(s[1..], c);
      FirstAtNext(s, 0, c);
      if i: nat :| FirstAt(s[1..], i, c) { FirstAtNext(s, i, c); }
      if i: nat :| FirstAt(s, i, c) {
        if i > 0 { FirstAtNext(s, i - 1, c); }
      }
    }
  }

  lemma NowhereEmpty(c: Condition)
    ensures forall i: nat :: !FirstAt("", i, c)
  {
  }
}
