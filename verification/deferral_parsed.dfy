/** What a parsed condition looks like, and what its argument says of the markers in the text it was found in. */
module DeferralParsed {
  import opened Basics
  import opened TextStrip
  import opened ResumeMarkers
  import opened ResumeMarkerProofs
  import opened DeferralNotes

  lemma {:induction false} LowerAllShape(s: string)
    requires forall i | 0 <= i < |s| :: KindChar(s[i])
    ensures |LowerAll(s)| == |s|
    ensures forall i | 0 <= i < |s| :: KindChar(LowerAll(s)[i]) && Lower(LowerAll(s)[i]) == LowerAll(s)[i]
  {
    if s != "" {
      LowerAllShape(s[1..]);
      assert forall i | 0 < i < |s| :: LowerAll(s)[i] == LowerAll(s[1..])[i - 1];
    }
  }

  lemma {:induction false} ArgRunShape(u: string)
    ensures forall i | 0 <= i < ArgRun(u) :: !IsSpace(u[i])
  {
    if u != "" && !IsSpace(u[0]) {
      ArgRunShape(u[1..]);
      assert forall i | 0 < i < ArgRun(u) :: u[i] == u[1..][i - 1];
    }
  }

  lemma ConditionShape(s: string)
    requires ConditionAt(s).Some? && ConditionAt(s).value.arg != ""
    ensures Proper(ConditionAt(s).value)
  {
    hide MarkerAt, Trim, ArgRun, LowerAll, KindRun, SkipSpace;
    var (kind, u) := KindAt(MarkerAt(s).value).value;
    LowerAllShape(kind);
    ArgRunShape(u);
    TrimShape(u[..ArgRun(u)]);
  }

  /** A parsed condition with an argument is a proper one. */
  lemma {:induction false} ParsedIsProper(s: string)
    requires ParseCondition(s).Some? && ParseCondition(s).value.arg != ""
    ensures Proper(ParseCondition(s).value)
    decreases |s|
  {
    hide ConditionAt, Proper;
    if ConditionAt(s).Some? { ConditionShape(s); } else { ParsedIsProper(s[1..]); }
  }

  /** The end of a text. */
  predicate EndOf(u: string, s: string) {
    |u| <= |s| && u == s[|s| - |u|..]
  }

  lemma EndOfEnd(u: string, t: string, s: string)
    requires EndOf(u, t) && EndOf(t, s)
    ensures EndOf(u, s)
  {
  }

  lemma SkipEnd(s: string)
    ensures EndOf(SkipSpace(s), s)
  {
    SkipSpaceShape(s);
  }

  lemma MarkerEnd(s: string)
    requires MarkerAt(s).Some?
    ensures s != "" && EndOf(MarkerAt(s).value, s[1..])
  {
    hide Opening;
    MarkerIsOpening(s);
    OpeningShape(s);
    var start := Opening(s).value;
    assert EndOf(start, s[1..]) && EndOf(MarkerAt(s).value, start);
    EndOfEnd(MarkerAt(s).value, start, s[1..]);
  }

  lemma KindEnd(rest: string)
    requires KindAt(rest).Some?
    ensures EndOf(KindAt(rest).value.1, rest)
  {
    hide KindRun, SkipSpace;
    var t := SkipSpace(rest);
    var after := t[KindRun(t)..];
    var colon := SkipSpace(after);
    SkipEnd(rest);
    SkipEnd(after);
    SkipEnd(colon[1..]);
    assert EndOf(after, t) && EndOf(colon[1..], colon);
    hide EndOf;
    EndOfEnd(after, t, rest);
    EndOfEnd(colon, after, rest);
    EndOfEnd(colon[1..], colon, rest);
    EndOfEnd(SkipSpace(colon[1..]), colon[1..], rest);
  }

  lemma ArgumentStands(s: string)
    requires ConditionAt(s).Some?
    ensures MarkerAt(s).Some? && s != "" && Contains(s[1..], ConditionAt(s).value.arg)
  {
    hide MarkerAt, Trim, ArgRun, LowerAll, KindAt;
    var rest := MarkerAt(s).value;
    var u := KindAt(rest).value.1;
    MarkerEnd(s);
    KindEnd(rest);
    EndOfEnd(u, rest, s[1..]);
    TrimShape(u[..ArgRun(u)]);
    StartStands(s[1..], u, Trim(u[..ArgRun(u)]));
  }

  lemma StartStands(s: string, u: string, arg: string)
    requires EndOf(u, s) && arg <= u
    ensures Contains(s, arg)
  {
    var i := |s| - |u|;
    assert s[i..i + |arg|] == s[i..][..|arg|] == arg;
    assert OccursAt(s, arg, i);
  }

  /** A text has no fewer markers than what it contains. */
  lemma ContainedMarkers(s: string, part: string)
    requires Contains(s, part)
    ensures Hits(s) >= Hits(part)
  {
    hide Hits;
    var i :| 0 <= i <= |s| && OccursAt(s, part, i);
    assert s == s[..i] + part + s[i + |part|..];
    HitsOfPrefix(s[..i] + part, s[i + |part|..]);
    HitsOfSuffix(s[..i], part);
  }

  /** The condition's own marker comes on top of those in its argument. */
  lemma {:induction false} ParsedMarkers(s: string)
    requires ParseCondition(s).Some?
    ensures Hits(s) >= 1 + Hits(ParseCondition(s).value.arg)
    decreases |s|
  {
    hide ConditionAt, MarkerAt, Contains;
    if ConditionAt(s).Some? {
      ArgumentStands(s);
      ContainedMarkers(s[1..], ConditionAt(s).value.arg);
    } else {
      ParsedMarkers(s[1..]);
    }
  }

  /** A canonical reason that does not state the condition holds several markers. */
  lemma CanonicalMarkers(reason: string, c: Condition)
    requires Proper(c) && MarkerCount(Render(c)) > 0 && !OneCondition(reason, c)
    ensures MarkerCount(CanonicalReason(reason, Render(c))) > 1
  {
    hide MarkerCount, Hits, ParseCondition, Historical, StripRight, Render;
    var marker := ParseCondition(reason);
    if MarkerCount(reason) == 1 && marker.Some? && Render(marker.value) == Render(c) {
      ParsedKind(reason);
      KindHasNoColon(c);
      RenderInjective(marker.value, c);
      assert false;
    } else {
      AppendedCondition(reason, StripRight(Historical(reason)), c);
    }
  }
}
