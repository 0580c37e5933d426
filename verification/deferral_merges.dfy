/** `merge_notes` and `_merged_notes` of shantytown/br.py for any text: nothing is replaced without force, and force
    loses nothing. */
module DeferralMerges {
  import opened Basics
  import opened TextStrip
  import opened ResumeMarkers
  import opened DeferralNotes

  function Prior(existing: Option<string>): string {
    if existing.None? then "" else existing.value
  }

  /** The new text stands in the result. */
  lemma AdditionStands(existing: Option<string>, addition: string)
    ensures Contains(MergeNotes(existing, addition).0, addition)
  {
    hide MarkerCount, Historical, Contains;
    var prior, merged := Prior(existing), MergeNotes(existing, addition).0;
    SelfContained(addition);
    PartContained(Historical(prior) + "\n\n", addition, "");
    PartContained(prior + "\n\n", addition, "");
    assert Historical(prior) + "\n\n" + addition + "" == Historical(prior) + "\n\n" + addition;
    assert prior + "\n\n" + addition + "" == prior + "\n\n" + addition;
  }

  /** Plain prose keeps the old notes word for word, unless they say the same, and is forced exactly when there
      are other notes. */
  lemma ProseKept(existing: Option<string>, addition: string)
    requires MarkerCount(addition) == 0
    ensures var prior, (merged, force) := Prior(existing), MergeNotes(existing, addition);
      && (force <==> Strip(prior) != "" && Strip(prior) != Strip(addition))
      && (force ==> Contains(merged, prior)) && (!force ==> merged == addition)
  {
    hide MarkerCount, Contains;
    var prior := Prior(existing);
    BlankMeans(prior);
    PartContained("", prior, "\n\n" + addition);
    assert "" + prior + ("\n\n" + addition) == prior + "\n\n" + addition;
  }

  lemma BlankMeans(s: string)
    ensures Blank(s) <==> Strip(s) == ""
  {
    if SkipSpace(s) != "" { FirstStays(SkipSpace(s)); }
  }

  lemma {:induction false} FirstStays(t: string)
    requires t != "" && !IsSpace(t[0])
    ensures StripRight(t) != ""
  {
    if IsSpace(t[|t| - 1]) { FirstStays(t[..|t| - 1]); }
  }

  /** A marker keeps the old notes, word for word or with their markers made inert; without force the notes stay
      as they are or there were none. */
  lemma MarkerKept(existing: Option<string>, addition: string)
    requires MarkerCount(addition) > 0
    ensures var prior, (merged, force) := Prior(existing), MergeNotes(existing, addition);
      && (!force ==> Strip(prior) == "" || merged == prior)
      && (force ==> Strip(prior) != "" && (Contains(merged, prior) || Contains(merged, Historical(prior))))
  {
    hide MarkerCount, Historical, Contains;
    var prior := Prior(existing);
    BlankMeans(prior);
    PartContained("", Historical(prior), "\n\n" + addition);
    assert "" + Historical(prior) + ("\n\n" + addition) == Historical(prior) + "\n\n" + addition;
  }

  /** The last guard never has to act, whatever is added to whatever notes. */
  lemma GuardIsIdle(existing: Option<string>, addition: string)
    ensures StoredNotes(existing, addition) == MergeNotes(existing, addition)
  {
    hide MergeNotes, MarkerCount, Historical, Contains;
    if MarkerCount(addition) == 0 { ProseKept(existing, addition); } else { MarkerKept(existing, addition); }
  }

  /** The prose with its markers inert and its closing blanks dropped, and then the condition. */
  predicate ProseThen(reason: string, condition: string, result: string, prose: string, blanks: string) {
    AllSpace(blanks) && Historical(reason) == prose + blanks && result == prose + "\nresume_when: " + condition
  }

  /** A canonical reason is the reason, or the reason with its markers made inert and the condition on a new line. */
  lemma CanonicalKeeps(reason: string, condition: string)
    ensures var result := CanonicalReason(reason, condition);
      result == reason || exists prose, blanks :: ProseThen(reason, condition, result, prose, blanks)
  {
    hide MarkerCount, ParseCondition, Render, Historical;
    var result := CanonicalReason(reason, condition);
    if result != reason {
      var blanks := RightOf(Historical(reason));
      assert ProseThen(reason, condition, result, StripRight(Historical(reason)), blanks);
    }
  }

  lemma HistoricalStep(s: string)
    ensures s != "" && MarkerAt(s).None? ==> Historical(s) == [s[0]] + Historical(s[1..])
    ensures s != "" && MarkerAt(s).Some? ==>
      Historical(s) == "historical resume condition:" + Historical(MarkerAt(s).value)
  {
    hide MarkerAt;
  }

  /** Up to its first marker a text stays as it is, and the marker becomes words that are none. */
  lemma {:induction false} HistoricalFirst(x: string, s: string, rest: string)
    requires MarkerAt(s) == Some(rest)
    requires forall i | 0 <= i < |x| :: MarkerAt(x[i..] + s).None?
    ensures Historical(x + s) == x + "historical resume condition:" + Historical(rest)
  {
    hide MarkerAt;
    var words := "historical resume condition:" + Historical(rest);
    HistoricalStep(x + s);
    hide Historical;
    if x == "" {
      assert x + s == s && s != "";
    } else {
      assert x[0..] == x;
      assert (x + s)[1..] == x[1..] + s;
      forall i | 0 <= i < |x[1..]| ensures MarkerAt(x[1..][i..] + s).None? { assert x[1..][i..] == x[i + 1..]; }
      HistoricalFirst(x[1..], s, rest);
      assert [x[0]] + (x[1..] + words) == x + words;
    }
    assert x + "historical resume condition:" + Historical(rest) == x + words;
  }
}
