/**
 Merging a new deferral into old notes: which merges leave exactly one marker, and
 that marker the new condition's.
 */
module DeferralNotes {
  import opened Basics
  import opened TextStrip
  import opened ResumeMarkers
  import opened ResumeMarkerProofs

  // ---------- parsing a part of a text ----------

  lemma {:induction false} HitsOfSuffix(a: string, b: string)
    ensures Hits(a + b) >= Hits(b)
  {
    hide MarkerAt;
    if a == "" {
      assert a + b == b;
    } else {
      assert (a + b)[1..] == a[1..] + b;
      HitsOfSuffix(a[1..], b);
    }
  }

  lemma {:induction false} HitsOfPrefix(a: string, b: string)
    ensures Hits(a + b) >= Hits(a)
  {
    hide MarkerAt;
    if a != "" {
      assert (a + b)[1..] == a[1..] + b;
      HitsOfPrefix(a[1..], b);
      if MarkerAt(a).Some? { MarkerExtends(a, b); }
    }
  }

  /** Where the front adds no marker, the first condition is the back's. */
  lemma {:induction false} ParseBack(a: string, b: string)
    requires Hits(a + b) == Hits(b)
    ensures ParseCondition(a + b) == ParseCondition(b)
  {
    hide MarkerAt, KindAt;
    if a == "" {
      assert a + b == b;
    } else {
      assert (a + b)[1..] == a[1..] + b;
      HitsOfSuffix(a[1..], b);
      ParseBack(a[1..], b);
    }
  }

  lemma {:induction false} NoHitsNoCondition(s: string)
    requires Hits(s) == 0
    ensures ParseCondition(s).None?
  {
    hide MarkerAt, KindAt;
    if s != "" { NoHitsNoCondition(s[1..]); }
  }

  /** The place of the only marker. */
  lemma {:induction false} SoleMarker(s: string) returns (p: nat)
    requires Hits(s) == 1
    ensures p < |s| && MarkerAt(s[p..]).Some?
    ensures ParseCondition(s) == ConditionAt(s[p..])
    ensures forall q | 0 <= q < |s| && MarkerAt(s[q..]).Some? :: q == p
  {
    hide MarkerAt, KindAt;
    if MarkerAt(s).Some? {
      p := 0;
      assert s[0..] == s;
      NoHitsNoCondition(s[1..]);
      forall q | 0 < q < |s| ensures MarkerAt(s[q..]).None? {
        NoHitAt(s[1..], q - 1);
        assert s[1..][q - 1..] == s[q..];
      }
    } else {
      var p' := SoleMarker(s[1..]);
      p := p' + 1;
      assert s[1..][p'..] == s[p..];
      assert s[0..] == s;
      forall q | 0 < q < |s| && MarkerAt(s[q..]).Some? ensures q == p {
        assert s[1..][q - 1..] == s[q..];
      }
    }
  }

  lemma {:induction false} NoHitAt(s: string, q: nat)
    requires Hits(s) == 0 && q < |s|
    ensures MarkerAt(s[q..]).None?
  {
    hide MarkerAt;
    if q == 0 { assert s[0..] == s; } else {
      NoHitAt(s[1..], q - 1);
      assert s[1..][q - 1..] == s[q..];
    }
  }

  // ---------- text after a condition ----------

  /** The argument's text, up to the end of `s`, of a condition that starts `s`. */
  function ArgText(s: string): Option<string> {
    match MarkerAt(s)
    case None => None
    case Some(rest) =>
      match KindAt(rest)
      case None => None
      case Some((_, u)) => Some(u)
  }

  /** The argument of the first condition runs to the very end of the text. */
  predicate EndsInArg(s: string) {
    if s == "" then false
    else if ConditionAt(s).Some? then ArgRun(ArgText(s).value) == |ArgText(s).value|
    else EndsInArg(s[1..])
  }

  lemma {:induction false} KindRunAcross(s: string, y: string)
    ensures KindRun(s) < |s| ==> KindRun(s + y) == KindRun(s)
  {
    if s != "" && KindChar(s[0]) {
      assert (s + y)[1..] == s[1..] + y;
      KindRunAcross(s[1..], y);
    }
  }

  lemma {:induction false} ArgRunAcross(u: string, y: string)
    ensures ArgRun(u + y) == if ArgRun(u) < |u| then ArgRun(u) else |u| + ArgRun(y)
  {
    if u == "" {
      assert u + y == y;
    } else if !IsSpace(u[0]) {
      assert (u + y)[1..] == u[1..] + y;
      ArgRunAcross(u[1..], y);
    }
  }

  lemma KindAcross(s: string, y: string)
    requires KindAt(s).Some?
    ensures KindAt(s + y) == Some((KindAt(s).value.0, KindAt(s).value.1 + y))
  {
    hide KindRun, SkipSpace;
    var t := SkipSpace(s);
    SkipSpaceAcross(s, y);
    var n := KindRun(t);
    assert n < |t| by { NothingAfter(t, n); }
    KindRunAcross(t, y);
    assert (t + y)[n..] == t[n..] + y && (t + y)[..n] == t[..n];
    SkipSpaceAcross(t[n..], y);
    var u := SkipSpace(t[n..]);
    assert (u + y)[1..] == u[1..] + y;
    SkipSpaceAcross(u[1..], y);
  }

  lemma NothingAfter(t: string, n: nat)
    requires n <= |t| && SkipSpace(t[n..]) != ""
    ensures n < |t|
  {
  }

  lemma MarkerRest(x: string, y: string)
    requires MarkerAt(x).Some?
    ensures MarkerAt(x + y) == Some(MarkerAt(x).value + y)
  {
    hide Word, SkipSpace;
    WordAcross("resume", x, y);
    var a := Word("resume", x).value;
    var j := SkipJoiner(a);
    assert j != "" by { assert Word("when", j).Some?; WhenNeeds(j); }
    assert SkipJoiner(a + y) == j + y by {
      assert a != "";
      assert (a + y)[1..] == a[1..] + y;
    }
    WordAcross("when", j, y);
    SkipSpaceAcross(Word("when", j).value, y);
    var c := SkipSpace(Word("when", j).value);
    assert (c + y)[1..] == c[1..] + y;
  }

  predicate AllTrailers(s: string) {
    forall i | 0 <= i < |s| :: Trailer(s[i])
  }

  lemma {:induction false} TrimShape(s: string)
    ensures Trim(s) <= s && AllTrailers(s[|Trim(s)|..])
    ensures Trim(s) != "" ==> !Trailer(Trim(s)[|Trim(s)| - 1])
  {
    if s != "" && Trailer(s[|s| - 1]) {
      var t := s[..|s| - 1];
      TrimShape(t);
      forall i | 0 <= i < |s| - |Trim(s)| ensures Trailer(s[|Trim(s)|..][i]) {
        if i < |t| - |Trim(t)| { assert t[|Trim(t)|..][i] == s[|Trim(s)|..][i]; }
      }
    }
  }

  /** Adding text after an argument leaves the trimmed argument alone only if all of it is trimmed away. */
  lemma TrimAcross(u: string, w: string)
    ensures Trim(u + w) == Trim(u) <==> AllTrailers(w)
  {
    hide Trim;
    TrimShape(u);
    TrimShape(u + w);
    var a, b := Trim(u), Trim(u + w);
    assert (u + w)[|u|..] == w;
    if b == a {
      forall i | 0 <= i < |w| ensures Trailer(w[i]) {
        assert (u + w)[|b|..][|u| - |b| + i] == w[i];
      }
    }
    if AllTrailers(w) {
      assert (u + w)[|a|..] == u[|a|..] + w;
      TrimUnique(u + w, a);
    }
  }

  lemma {:induction false} TrimUnique(s: string, t: string)
    requires t <= s && AllTrailers(s[|t|..]) && (t != "" ==> !Trailer(t[|t| - 1]))
    ensures Trim(s) == t
  {
    if |t| < |s| {
      assert s[|t|..][|s| - 1 - |t|] == s[|s| - 1];
      assert s[..|s| - 1][|t|..] == s[|t|..][..|s| - 1 - |t|];
      TrimUnique(s[..|s| - 1], t);
    }
  }

  lemma ConditionAcross(x: string, y: string)
    requires ConditionAt(x).Some?
    ensures ConditionAt(x + y).Some?
    ensures ConditionAt(x + y) == ConditionAt(x) <==>
      (ArgRun(ArgText(x).value) == |ArgText(x).value| ==> AllTrailers(y[..ArgRun(y)]))
  {
    hide MarkerAt, KindAt, Trim, ArgRun;
    MarkerRest(x, y);
    var rest := MarkerAt(x).value;
    KindAcross(rest, y);
    var u := KindAt(rest).value.1;
    ArgRunAcross(u, y);
    var n := ArgRun(u);
    if n < |u| {
      assert (u + y)[..n] == u[..n];
    } else {
      assert u[..n] == u;
      assert (u + y)[..n + ArgRun(y)] == u + y[..ArgRun(y)];
      TrimAcross(u, y[..ArgRun(y)]);
    }
  }

  lemma {:induction false} EndsInArgAt(s: string, p: nat)
    requires Hits(s) == 1 && p < |s| && MarkerAt(s[p..]).Some? && ConditionAt(s[p..]).Some?
    ensures EndsInArg(s) <==> ArgRun(ArgText(s[p..]).value) == |ArgText(s[p..]).value|
  {
    hide MarkerAt, KindAt, ArgRun;
    if p == 0 {
      assert s[0..] == s;
    } else {
      assert s[1..][p - 1..] == s[p..];
      if MarkerAt(s).Some? { NoHitAt(s[1..], p - 1); }
      EndsInArgAt(s[1..], p - 1);
    }
  }

  // ---------- the merge ----------

  /** The text after the first occurrence of `part`. */
  function AfterPart(s: string, part: string): string
    requires Contains(s, part)
  {
    if part <= s then s[|part|..]
    else
      ContainsTail(s, part);
      AfterPart(s[1..], part)
  }

  lemma ContainsTail(s: string, part: string)
    requires Contains(s, part) && !(part <= s)
    ensures s != "" && Contains(s[1..], part)
  {
    var i :| 0 <= i <= |s| && OccursAt(s, part, i);
    assert OccursAt(s, part, 0) ==> part <= s;
    assert s[1..][i - 1..i - 1 + |part|] == part;
    assert OccursAt(s[1..], part, i - 1);
  }

  lemma Prepend(s: string, x: string, part: string, y: string)
    requires s != "" && s[1..] == x + part + y
    ensures s == [s[0]] + x + part + y
  {
    assert s == [s[0]] + s[1..];
  }

  lemma {:induction false} AfterPartSplits(s: string, part: string) returns (x: string)
    requires Contains(s, part)
    ensures s == x + part + AfterPart(s, part)
  {
    if part <= s {
      x := "";
      assert s == part + s[|part|..];
      assert "" + part == part;
    } else {
      ContainsTail(s, part);
      var x' := AfterPartSplits(s[1..], part);
      x := [s[0]] + x';
      Prepend(s, x', part, AfterPart(s, part));
    }
  }

  /** When the old notes already hold the addition: what follows it does not lengthen its argument. */
  predicate ArgKept(prior: string, addition: string)
    requires Contains(prior, addition)
  {
    var y := AfterPart(prior, addition);
    EndsInArg(addition) ==> AllTrailers(y[..ArgRun(y)])
  }

  /** The guard under which merging works, by the branch the merge takes. */
  predicate MergeKeepsCondition(existing: Option<string>, addition: string) {
    var prior := if existing.None? then "" else existing.value;
    if Blank(prior) then true
    else if Contains(prior, addition) && MarkerCount(prior) == 1 then ArgKept(prior, addition)
    else if Contains(addition, prior) then true
    else !(OpenTail(prior) && StartsSep(SkipSpace(addition)))
  }

  predicate OneCondition(notes: string, c: Condition) {
    MarkerCount(notes) == 1 && ParseCondition(notes) == Some(c)
  }

  lemma SelfContained(s: string)
    ensures Contains(s, s)
  {
    assert OccursAt(s, s, 0);
  }

  lemma PartContained(x: string, part: string, y: string)
    ensures Contains(x + part + y, part)
  {
    var s := x + part + y;
    assert s[|x|..|x| + |part|] == part;
    assert OccursAt(s, part, |x|);
  }

  lemma HeldMerge(prior: string, addition: string, c: Condition)
    requires OneCondition(addition, c) && Contains(prior, addition) && MarkerCount(prior) == 1
    ensures OneCondition(prior, c) <==> ArgKept(prior, addition)
  {
    hide MarkerCount, MarkerAt, KindAt, ArgRun, Hits, AfterPart, EndsInArg, ParseCondition, ArgText, AllTrailers;
    CountIsHits(prior);
    CountIsHits(addition);
    var y := AfterPart(prior, addition);
    var x := AfterPartSplits(prior, addition);
    var z := addition + y;
    assert prior == x + z;
    HitsOfSuffix(x, z);
    HitsOfPrefix(addition, y);
    ParseBack(x, z);
    var p := SoleMarker(addition);
    var q := SoleMarker(z);
    assert z[p..] == addition[p..] + y;
    MarkerExtends(addition[p..], y);
    assert p == q;
    ConditionAcross(addition[p..], y);
    EndsInArgAt(addition, p);
  }

  lemma AppendedMerge(prior: string, addition: string, c: Condition)
    requires OneCondition(addition, c)
    ensures OneCondition(Historical(prior) + "\n\n" + addition, c)
      <==> !(OpenTail(prior) && StartsSep(SkipSpace(addition)))
  {
    hide MarkerCount, Hits, ParseCondition, Historical, OpenTail;
    var h := Historical(prior);
    var b := "\n\n" + addition;
    assert h + "\n\n" + addition == h + b;
    CountIsHits(h + b);
    CountIsHits(addition);
    HistoricalHasNoMarker(prior);
    HistoricalKeepsOpenTail(prior);
    HitsAcross(h, b);
    SkipNoR("\n\n", addition);
    BlankLines(addition);
    if Hits(h + b) == 1 {
      assert h + b == (h + "\n\n") + addition;
      ParseBack(h + "\n\n", addition);
    }
  }

  lemma BlankLines(s: string)
    ensures SkipSpace("\n\n" + s) == SkipSpace(s)
  {
    assert ("\n\n" + s)[1..] == "\n" + s;
    assert ("\n" + s)[1..] == s;
  }

  /** Merging an addition that states one condition leaves that one condition exactly
      when the guard of the branch taken holds. Nothing of the old text is ever lost. */
  lemma MergeTheorem(existing: Option<string>, addition: string, c: Condition)
    requires OneCondition(addition, c)
    ensures var prior := if existing.None? then "" else existing.value;
      var merged := MergeDeferralNotes(existing, addition).0;
      && (OneCondition(merged, c) <==> MergeKeepsCondition(existing, addition))
      && Contains(merged, addition)
      && (Contains(merged, prior) || Contains(merged, Historical(prior)) || Blank(prior))
  {
    hide MarkerCount, ParseCondition, Historical, OpenTail, Contains, ArgKept;
    var prior := if existing.None? then "" else existing.value;
    SelfContained(addition);
    SelfContained(prior);
    if Blank(prior) {
    } else if Contains(prior, addition) && MarkerCount(prior) == 1 {
      HeldMerge(prior, addition, c);
    } else if Contains(addition, prior) {
    } else {
      AppendedMerge(prior, addition, c);
      var merged := Historical(prior) + "\n\n" + addition;
      PartContained(Historical(prior) + "\n\n", addition, "");
      assert Historical(prior) + "\n\n" + addition + "" == merged;
      PartContained("", Historical(prior), "\n\n" + addition);
      assert "" + Historical(prior) + ("\n\n" + addition) == merged;
    }
  }

  // ---------- a rendered condition ----------

  /** A condition as `parse_condition` yields it: lower-case kind, bare argument. */
  ghost predicate Proper(c: Condition) {
    && c.kind != "" && (forall i | 0 <= i < |c.kind| :: KindChar(c.kind[i]) && Lower(c.kind[i]) == c.kind[i])
    && c.arg != "" && (forall i | 0 <= i < |c.arg| :: !IsSpace(c.arg[i]))
    && !Trailer(c.arg[|c.arg| - 1])
  }

  lemma WrittenMarker(r: string)
    ensures MarkerAt("resume_when: " + r) == Some(" " + r)
    ensures Hits("resume_when: " + r) == 1 + Hits(r)
  {
    hide Word, Hits, MarkerAt;
    var s := "resume_when: " + r;
    WrittenOpening(r);
    HitsUnfold(s);
    var x := "esume_when: ";
    assert s[1..] == x + r;
    SkipNoR(x, r);
  }

  lemma WrittenOpening(r: string)
    ensures MarkerAt("resume_when: " + r) == Some(" " + r)
  {
    hide Word;
    var s, u, v := "resume_when: " + r, "_when: " + r, ": " + r;
    assert Word("resume", s) == Some(u) by {
      assert s == "resume" + u;
      WordAcross("resume", "resume", u);
      WordItself();
      assert "" + u == u;
    }
    assert Word("when", u[1..]) == Some(v) by {
      assert u[1..] == "when" + v;
      WordAcross("when", "when", v);
      WhenItself();
      assert "" + v == v;
    }
    assert u[0] == '_' && SkipJoiner(u) == u[1..];
    assert v[0] == ':' && SkipSpace(v) == v;
    assert v[1..] == " " + r;
  }

  lemma HitsUnfold(s: string)
    requires MarkerAt(s).Some?
    ensures Hits(s) == 1 + Hits(s[1..])
  {
  }

  lemma WhenItself()
    ensures Word("when", "when") == Some("")
  {
    assert Word("en", "en") == Some("");
  }

  lemma {:induction false} KindRunAll(kind: string, rest: string)
    requires (forall i | 0 <= i < |kind| :: KindChar(kind[i])) && rest != "" && rest[0] == ':'
    ensures KindRun(kind + rest) == |kind|
  {
    if kind == "" {
      assert kind + rest == rest;
    } else {
      assert (kind + rest)[1..] == kind[1..] + rest;
      KindRunAll(kind[1..], rest);
    }
  }

  lemma {:induction false} ArgRunAll(arg: string)
    requires forall i | 0 <= i < |arg| :: !IsSpace(arg[i])
    ensures ArgRun(arg) == |arg|
  {
    if arg != "" { ArgRunAll(arg[1..]); }
  }

  lemma {:induction false} LowerAllSame(s: string)
    requires forall i | 0 <= i < |s| :: Lower(s[i]) == s[i]
    ensures LowerAll(s) == s
  {
    if s != "" { LowerAllSame(s[1..]); }
  }

  lemma RenderedKind(c: Condition)
    requires Proper(c)
    ensures KindAt(" " + Render(c)) == Some((c.kind, c.arg))
  {
    hide KindRun;
    var t := c.kind + (":" + c.arg);
    assert Render(c) == t;
    assert (" " + t)[1..] == t;
    assert KindChar(c.kind[0]);
    assert SkipSpace(" " + t) == t;
    KindRunAll(c.kind, ":" + c.arg);
    var n := |c.kind|;
    assert t[..n] == c.kind && t[n..] == ":" + c.arg;
    assert (":" + c.arg)[1..] == c.arg;
  }

  /** Writing a condition out and parsing it again gives it back. */
  lemma RenderParses(c: Condition)
    requires Proper(c)
    ensures ParseCondition("resume_when: " + Render(c)) == Some(c)
  {
    hide MarkerAt, KindAt, Hits, ArgRun, LowerAll, Trim;
    var s := "resume_when: " + Render(c);
    WrittenMarker(Render(c));
    RenderedKind(c);
    ArgRunAll(c.arg);
    assert c.arg[..|c.arg|] == c.arg;
    LowerAllSame(c.kind);
    TrimShape(c.arg);
    TrimNothing(c.arg);
    assert ConditionAt(s) == Some(c);
  }

  lemma TrimNothing(s: string)
    requires s != "" && !Trailer(s[|s| - 1])
    ensures Trim(s) == s
  {
  }

  lemma {:induction false} StripRightIsPrefix(s: string)
    ensures StripRight(s) <= s
  {
    if s != "" && IsSpace(s[|s| - 1]) { StripRightIsPrefix(s[..|s| - 1]); }
  }

  lemma RenderInjective(a: Condition, b: Condition)
    requires ':' !in a.kind && ':' !in b.kind && Render(a) == Render(b)
    ensures a == b
  {
    var s := Render(a);
    assert s[|a.kind|] == ':' && s[|b.kind|] == ':';
    assert forall i | 0 <= i < |a.kind| :: a.kind[i] == s[i] != ':';
    assert forall i | 0 <= i < |b.kind| :: b.kind[i] == s[i] != ':';
    assert |a.kind| == |b.kind|;
    assert a.kind == s[..|a.kind|] && b.kind == s[..|b.kind|];
    assert a.arg == s[|a.kind| + 1..] && b.arg == s[|b.kind| + 1..];
  }

  lemma {:induction false} LowerAllKeeps(s: string)
    requires forall i | 0 <= i < |s| :: KindChar(s[i])
    ensures ':' !in LowerAll(s)
  {
    if s != "" { LowerAllKeeps(s[1..]); }
  }

  lemma {:induction false} ParsedKind(s: string)
    ensures ParseCondition(s).Some? ==> ':' !in ParseCondition(s).value.kind
    decreases |s|
  {
    hide MarkerAt, Trim, ArgRun, LowerAll;
    if s != "" {
      if ConditionAt(s).Some? {
        var t := SkipSpace(MarkerAt(s).value);
        LowerAllKeeps(t[..KindRun(t)]);
      } else {
        ParsedKind(s[1..]);
      }
    }
  }

  /** `canonical_reason` keeps a reason that already states the condition.
      Otherwise it appends it, which is one condition unless the condition's own text holds a marker. */
  lemma CanonicalTheorem(reason: string, c: Condition)
    requires Proper(c)
    ensures var result := CanonicalReason(reason, Render(c));
      && (OneCondition(result, c) <==> OneCondition(reason, c) || MarkerCount(Render(c)) == 0)
      && (OneCondition(reason, c) ==> result == reason)
  {
    hide MarkerCount, Hits, ParseCondition, Historical, StripRight, Render;
    var marker := ParseCondition(reason);
    if MarkerCount(reason) == 1 && marker.Some? && Render(marker.value) == Render(c) {
      ParsedKind(reason);
      KindHasNoColon(c);
      RenderInjective(marker.value, c);
    } else {
      var h := StripRight(Historical(reason));
      AppendedCondition(reason, h, c);
      assert !OneCondition(reason, c);
    }
  }

  lemma KindHasNoColon(c: Condition)
    requires Proper(c)
    ensures ':' !in c.kind
  {
  }

  lemma AppendedCondition(reason: string, h: string, c: Condition)
    requires Proper(c) && h == StripRight(Historical(reason))
    ensures OneCondition(h + "\nresume_when: " + Render(c), c) <==> MarkerCount(Render(c)) == 0
    ensures MarkerCount(Render(c)) > 0 ==> MarkerCount(h + "\nresume_when: " + Render(c)) > 1
  {
    hide MarkerCount, Hits, ParseCondition, Historical, StripRight, Render, OpenTail;
    var m := "resume_when: " + Render(c);
    var b := "\n" + m;
    assert h + "\nresume_when: " + Render(c) == h + b;
    StripRightIsPrefix(Historical(reason));
    HistoricalHasNoMarker(reason);
    HitsOfPrefix(h, Historical(reason)[|h|..]);
    assert h + Historical(reason)[|h|..] == Historical(reason);
    HitsAcross(h, b);
    assert b[1..] == m;
    assert SkipSpace(b) == m;
    SkipNoR("\n", m);
    WrittenMarker(Render(c));
    CountIsHits(h + b);
    CountIsHits(Render(c));
    RenderParses(c);
    if Hits(h + b) == 1 {
      assert h + b == (h + "\n") + m;
      ParseBack(h + "\n", m);
    }
  }

  /** Defer's whole text path: a canonical reason, merged into old notes under the guard of
      the branch taken, leaves one condition, the chosen one. */
  lemma CanonicalMerge(existing: Option<string>, reason: string, c: Condition)
    requires Proper(c) && MarkerCount(Render(c)) == 0
    ensures var canonical := CanonicalReason(reason, Render(c));
      OneCondition(MergeNotes(existing, canonical).0, c) <==> MergeKeepsCondition(existing, canonical)
  {
    hide MarkerCount, Render, CanonicalReason, MergeDeferralNotes, MergeKeepsCondition;
    CanonicalTheorem(reason, c);
    MergeTheorem(existing, CanonicalReason(reason, Render(c)), c);
  }

  /** The last guard of `_merged_notes` never has to act on a deferral's reason. */
  lemma StoredIsMerged(existing: Option<string>, addition: string, c: Condition)
    requires OneCondition(addition, c)
    ensures StoredNotes(existing, addition) == MergeDeferralNotes(existing, addition)
  {
    hide MarkerCount, ParseCondition, Historical, Contains;
    MergeTheorem(existing, addition, c);
    if existing.Some? && Blank(existing.value) { }
  }

  // ---------- the two ways a merge fails ----------

  lemma Example(front: string, kind: string, arg: string)
    requires Proper(Condition(kind, arg)) && (forall i | 0 <= i < |front| :: !IsR(front[i]))
    requires forall i | 0 <= i < |kind + ":" + arg| :: !IsR((kind + ":" + arg)[i])
    ensures OneCondition(front + ("resume_when: " + (kind + ":" + arg)), Condition(kind, arg))
  {
    hide Hits, MarkerCount, ParseCondition;
    var c := Condition(kind, arg);
    var m := "resume_when: " + Render(c);
    SkipNoR(Render(c), "");
    assert Render(c) + "" == Render(c);
    assert Hits("") == 0 by { NoText(); }
    WrittenMarker(Render(c));
    SkipNoR(front, m);
    CountIsHits(front + m);
    ParseBack(front, m);
    RenderParses(c);
  }

  lemma NoText()
    ensures Hits("") == 0
  {
  }

  /** Old text cut off before its colon, and an addition that starts with one: two markers. */
  lemma JoinedMarkerFails()
    ensures var prior, addition := "Z resume_when", ": so\nresume_when: closed:b";
      var c := Condition("closed", "b");
      OneCondition(addition, c) && !OneCondition(MergeDeferralNotes(Some(prior), addition).0, c)
  {
    hide MarkerCount, ParseCondition, Historical, MergeDeferralNotes, OpenTail, Contains, Render, Proper;
    var prior, addition := "Z resume_when", ": so\nresume_when: closed:b";
    JoinedExample();
    assert prior[0] == 'Z' && 'Z' !in addition;
    if Contains(addition, prior) { PartsHaveTheirChars(addition, prior); }
    MergeTheorem(Some(prior), addition, Condition("closed", "b"));
    if Contains(prior, addition) { PartsAreShorter(prior, addition); }
    OpenExample();
    assert SkipSpace(addition) == addition && SkipSpace(prior) == prior;
  }

  lemma JoinedExample()
    ensures OneCondition(": so\nresume_when: closed:b", Condition("closed", "b"))
  {
    hide OneCondition;
    Example(": so\n", "closed", "b");
    assert ": so\nresume_when: closed:b" == ": so\n" + ("resume_when: " + ("closed" + ":" + "b"));
  }

  lemma PartsHaveTheirChars(s: string, part: string)
    requires Contains(s, part) && part != ""
    ensures part[0] in s
  {
    var i :| 0 <= i <= |s| && OccursAt(s, part, i);
    assert s[i..i + |part|][0] == s[i];
  }

  lemma PartsAreShorter(s: string, part: string)
    requires Contains(s, part)
    ensures |part| <= |s|
  {
  }

  lemma OpenExample()
    ensures OpenTail("Z resume_when")
  {
    hide OpenAt;
    OpenWords();
    SkipNoRTail("Z ", "resume_when");
    assert "Z " + "resume_when" == "Z resume_when";
  }

  lemma OpenWords()
    ensures OpenAt("resume_when")
  {
    hide Word;
    var u := "_when";
    assert "resume_when" == "resume" + u;
    WordAcross("resume", "resume", u);
    WordItself();
    WhenItself();
    assert "" + u == u;
    assert u[1..] == "when";
  }

  /** The addition is already there, but inside a longer argument: the old condition stays. */
  lemma LongerArgumentFails()
    ensures var prior, addition := "resume_when: closed:b2", "resume_when: closed:b";
      var c := Condition("closed", "b");
      OneCondition(addition, c) && !OneCondition(MergeDeferralNotes(Some(prior), addition).0, c)
  {
    hide MarkerCount, ParseCondition, Historical;
    var prior, addition := "resume_when: closed:b2", "resume_when: closed:b";
    Example("", "closed", "b");
    assert addition == "" + ("resume_when: " + ("closed" + ":" + "b"));
    Example("", "closed", "b2");
    assert prior == "" + ("resume_when: " + ("closed" + ":" + "b2"));
    PartContained("", addition, "2");
    assert "" + addition + "2" == prior;
  }
}
