/** What making markers inert, and merging notes, does to the markers. */
module ResumeMarkerProofs {
  import opened Basics
  import opened TextStrip
  import opened ResumeMarkers

  predicate IsR(c: char) {
    Lower(c) == 'r'
  }

  /** Markers counted place by place. */
  function Hits(s: string): nat {
    if s == "" then 0 else (if MarkerAt(s).Some? then 1 else 0) + Hits(s[1..])
  }

  lemma MarkerStartsWithR(s: string)
    requires Opening(s).Some?
    ensures s != "" && IsR(s[0])
  {
    assert Word("resume", s).Some?;
  }

  lemma {:induction false} SkipNoR(x: string, t: string)
    requires forall i | 0 <= i < |x| :: !IsR(x[i])
    ensures Hits(x + t) == Hits(t)
  {
    hide MarkerAt;
    if x == "" {
      assert x + t == t;
    } else {
      assert (x + t)[1..] == x[1..] + t;
      SkipNoR(x[1..], t);
      NoMarkerHere(x + t);
    }
  }

  lemma NoMarkerHere(s: string)
    requires s != "" && !IsR(s[0])
    ensures MarkerAt(s).None? && Opening(s).None?
  {
    if Opening(s).Some? { MarkerStartsWithR(s); }
  }

  lemma {:induction false} WordShape(w: string, s: string)
    requires Word(w, s).Some?
    ensures |s| >= |w| && Word(w, s).value == s[|w|..]
    ensures forall i | 0 <= i < |w| :: Lower(s[i]) == w[i]
  {
    if w != "" {
      WordShape(w[1..], s[1..]);
      assert s[1..][|w| - 1..] == s[|w|..];
      forall i | 0 < i < |w| ensures Lower(s[i]) == w[i] {
        assert s[1..][i - 1] == s[i] && w[1..][i - 1] == w[i];
      }
    }
  }

  lemma {:induction false} SkipSpaceShape(s: string)
    ensures SkipSpace(s) == s[|s| - |SkipSpace(s)|..]
    ensures forall i | 0 <= i < |s| - |SkipSpace(s)| :: IsSpace(s[i])
  {
    if s != "" && IsSpace(s[0]) {
      SkipSpaceShape(s[1..]);
      var n := |s| - |SkipSpace(s)|;
      assert s[1..][n - 1..] == s[n..];
      forall i | 0 < i < n ensures IsSpace(s[i]) { assert s[1..][i - 1] == s[i]; }
    }
  }

  /** Inside what an opening consumes, only the first character is an r. */
  lemma OpeningShape(s: string)
    requires Opening(s).Some?
    ensures var n := |s| - |Opening(s).value|; 0 < n && Opening(s).value == s[n..] && forall i | 0 < i < n :: !IsR(s[i])
  {
    hide Word, SkipSpace;
    var a := Word("resume", s).value;
    var b := SkipJoiner(a);
    var c := Word("when", b).value;
    WordShape("resume", s);
    WordShape("when", b);
    SkipSpaceShape(c);
    WordsHaveNoR(s, b);
    var n := |s| - |SkipSpace(c)|;
    var j := |s| - |b|;
    assert b == s[j..] && c == s[j + 4..] && SkipSpace(c) == s[n..];
    assert j == 7 ==> s[6] == a[0];
    forall i | 0 < i < n ensures !IsR(s[i]) {
      if j <= i < j + 4 {
        assert b[i - j] == s[i];
      } else if i >= j + 4 {
        assert s[i] == c[i - j - 4];
      }
    }
  }

  lemma WordsHaveNoR(s: string, b: string)
    requires |s| >= 6 && |b| >= 4
    requires forall i | 0 <= i < 6 :: Lower(s[i]) == "resume"[i]
    requires forall i | 0 <= i < 4 :: Lower(b[i]) == "when"[i]
    ensures forall i | 0 < i < 6 :: !IsR(s[i])
    ensures forall i | 0 <= i < 4 :: !IsR(b[i])
  {
  }

  /** Markers cannot overlap, so searching and counting place by place agree. */
  lemma {:induction false} CountIsHits(s: string)
    ensures MarkerCount(s) == Hits(s)
    decreases |s|
  {
    if s != "" {
      match MarkerAt(s)
      case None => CountIsHits(s[1..]);
      case Some(rest) =>
        OpeningShape(s);
        var n := |s| - |rest|;
        assert s[n - 1] == ':' || s[n - 1] == '=';
        assert forall i | 0 < i < n :: !IsR(s[i]);
        var x := s[1..n];
        assert forall i | 0 <= i < |x| :: x[i] == s[i + 1];
        assert s[1..] == x + rest;
        SkipNoR(x, rest);
        CountIsHits(rest);
    }
  }

  // ---------- a marker across a join ----------

  lemma {:induction false} WordAcross(w: string, x: string, b: string)
    ensures Word(w, x).Some? ==> Word(w, x + b) == Some(Word(w, x).value + b)
    ensures Word(w, x).None? && Word(w, x + b).Some? ==> |x| < |w| && Word(w[|x|..], b) == Word(w, x + b)
  {
    if w == "" {
    } else if x == "" {
      assert x + b == b;
      assert w[0..] == w;
    } else if Lower(x[0]) == w[0] {
      assert (x + b)[1..] == x[1..] + b;
      WordAcross(w[1..], x[1..], b);
      if Word(w, x).None? && Word(w, x + b).Some? {
        assert w[1..][|x| - 1..] == w[|x|..];
      }
    }
  }

  lemma {:induction false} SkipSpaceAcross(x: string, b: string)
    ensures SkipSpace(x + b) == if SkipSpace(x) == "" then SkipSpace(b) else SkipSpace(x) + b
  {
    if x == "" {
      assert x + b == b;
    } else if IsSpace(x[0]) {
      assert (x + b)[1..] == x[1..] + b;
      SkipSpaceAcross(x[1..], b);
    }
  }

  /** Text that cannot continue a word of the pattern: it starts with a newline,
      or with `hi`, where the pattern wants `he`. */
  predicate Breaks(b: string) {
    b != "" && (b[0] == '\n' || (|b| > 1 && b[0] == 'h' && b[1] == 'i'))
  }

  /** How an opening continues across a join with text that breaks words. */
  lemma OpeningAcross(x: string, b: string)
    requires x != "" && Breaks(b)
    ensures Opening(x + b) == match Opening(x) {
      case None => None
      case Some(c) => Some(if c == "" then SkipSpace(b) else c + b)
    }
  {
    hide Word, SkipSpace;
    WordAcross("resume", x, b);
    if Word("resume", x).None? {
      if Word("resume", x + b).Some? {
        BreaksResume(|x|, b);
      }
    } else {
      var a := Word("resume", x).value;
      JoinerAcross(a, b);
      var j := SkipJoiner(a);
      WordAcross("when", j, b);
      if Word("when", j).None? {
        if Word("when", j + b).Some? { BreaksWhen(|j|, b); }
      } else {
        SkipSpaceAcross(Word("when", j).value, b);
      }
    }
  }

  lemma JoinerAcross(a: string, b: string)
    requires Breaks(b)
    ensures SkipJoiner(a + b) == SkipJoiner(a) + b
  {
    if a == "" { assert a + b == b; } else { assert (a + b)[1..] == a[1..] + b; }
  }

  lemma BreaksResume(n: nat, b: string)
    requires n < 6 && Breaks(b)
    ensures Word("resume"[n..], b).None?
  {
    assert "resume"[n..][0] == "resume"[n];
  }

  lemma BreaksWhen(n: nat, b: string)
    requires n < 4 && Breaks(b)
    ensures Word("when"[n..], b).None?
  {
    var w := "when"[n..];
    assert w[0] == "when"[n];
    if n == 1 && b[0] == 'h' {
      assert w[1..][0] == 'e';
      assert b[1..][0] == 'i';
    }
  }

  /** `x` is an opening that reaches its own end: a separator after it would make a marker. */
  predicate OpenAt(x: string) {
    Opening(x) == Some("")
  }

  lemma MarkerAcross(x: string, b: string)
    requires x != "" && Breaks(b)
    ensures MarkerAt(x + b).Some? <==> MarkerAt(x).Some? || (OpenAt(x) && StartsSep(SkipSpace(b)))
  {
    hide Opening, SkipSpace;
    OpeningAcross(x, b);
  }

  /** Some opening reaches the end of the text. */
  predicate OpenTail(s: string) {
    s != "" && (OpenAt(s) || OpenTail(s[1..]))
  }

  lemma {:induction false} HitsAcross(a: string, b: string)
    requires Breaks(b)
    ensures Hits(a + b) == Hits(a) + Hits(b) + (if OpenTail(a) && StartsSep(SkipSpace(b)) then 1 else 0)
  {
    hide MarkerAt, SkipSpace, OpenAt;
    if a == "" {
      assert a + b == b;
    } else {
      assert (a + b)[1..] == a[1..] + b;
      MarkerAcross(a, b);
      HitsAcross(a[1..], b);
      if OpenAt(a) { OpenOnce(a); }
    }
  }

  lemma OpenOnce(a: string)
    requires OpenAt(a)
    ensures !OpenTail(a[1..]) && MarkerAt(a).None?
  {
    OpeningShape(a);
    assert forall i | 0 <= i < |a[1..]| :: a[1..][i] == a[i + 1];
    NoOpenTail(a[1..]);
  }

  lemma {:induction false} NoOpenTail(x: string)
    requires forall i | 0 <= i < |x| :: !IsR(x[i])
    ensures !OpenTail(x)
  {
    if x != "" {
      NoMarkerHere(x);
      NoOpenTail(x[1..]);
    }
  }

  // ---------- historical text has no marker ----------

  lemma InertAddsNothing(t: string)
    ensures Hits(INERT + t) == Hits(t)
  {
    hide Hits, MarkerAt;
    var c := "esume condition:" + t;
    var d := "ical " + (['r'] + c);
    assert INERT + t == "histo" + (['r'] + d);
    SkipNoR("histo", ['r'] + d);
    FirstR(d);
    SkipNoR("ical ", ['r'] + c);
    SecondR(t);
    SkipNoR("esume condition:", t);
  }

  lemma FirstR(d: string)
    requires |d| > 0 && d[0] == 'i'
    ensures Hits(['r'] + d) == Hits(d)
  {
    assert (['r'] + d)[1..] == d;
    assert Word("resume", ['r'] + d).None?;
  }

  lemma SecondR(t: string)
    ensures Hits(['r'] + ("esume condition:" + t)) == Hits("esume condition:" + t)
  {
    hide Hits;
    var s := ['r'] + ("esume condition:" + t);
    assert s[1..] == "esume condition:" + t;
    WordSplit(t);
    HitsStep(s);
  }

  lemma HitsStep(s: string)
    requires s != "" && MarkerAt(s).None?
    ensures Hits(s) == Hits(s[1..])
  {
  }

  lemma WordSplit(t: string)
    ensures MarkerAt(['r'] + ("esume condition:" + t)).None?
    ensures Opening(['r'] + ("esume condition:" + t)).None?
  {
    hide Word;
    var s := ['r'] + ("esume condition:" + t);
    var u := " condition:" + t;
    assert s == "resume" + u;
    WordAcross("resume", "resume", u);
    WordItself();
    assert "" + u == u;
    assert SkipJoiner(u)[0] == 'c';
    WhenFails(SkipJoiner(u));
  }

  lemma WordItself()
    ensures Word("resume", "resume") == Some("")
  {
    assert Word("me", "me") == Some("");
    assert Word("sume", "sume") == Some("");
    assert Word("resume", "resume") == Word("sume", "sume");
  }

  lemma WhenFails(s: string)
    requires s != "" && s[0] == 'c'
    ensures Word("when", s).None?
  {
  }

  /** Up to the first marker nothing changes, and there the text breaks words. */
  lemma {:induction false} HistoricalShape(s: string) returns (x: string, b: string)
    ensures Historical(s) == x + b && x <= s && (b == "" || INERT <= b)
    ensures b == "" ==> x == s
    ensures b != "" ==> MarkerAt(s[|x|..]).Some?
    ensures MarkerAt(s).Some? ==> x == ""
    ensures s != "" && MarkerAt(s).None? ==> x != ""
    decreases |s|
  {
    hide MarkerAt;
    if s == "" {
      x, b := "", "";
    } else {
      match MarkerAt(s)
      case Some(rest) =>
        x, b := "", INERT + Historical(rest);
        assert Historical(s) == "" + b;
        assert s[0..] == s;
      case None =>
        var x', b' := HistoricalShape(s[1..]);
        x, b := [s[0]] + x', b';
        FrontBack(s, x', b');
    }
  }

  lemma FrontBack(s: string, x: string, b: string)
    requires s != "" && MarkerAt(s).None? && Historical(s[1..]) == x + b && x <= s[1..]
    ensures Historical(s) == [s[0]] + x + b && [s[0]] + x <= s && s[|x| + 1..] == s[1..][|x|..]
    ensures x == s[1..] ==> [s[0]] + x == s
  {
    hide MarkerAt;
    assert s == [s[0]] + s[1..];
  }

  /** A marker at the front of a prefix is one at the front of the whole. */
  lemma MarkerExtends(x: string, y: string)
    requires MarkerAt(x).Some?
    ensures MarkerAt(x + y).Some?
  {
    hide Word, SkipSpace;
    WordAcross("resume", x, y);
    var a := Word("resume", x).value;
    var j := SkipJoiner(a);
    assert j != "" by { assert Word("when", j).Some?; WhenNeeds(j); }
    assert SkipJoiner(a + y) == j + y by {
      assert a != "";
      assert (a + y)[1..] == a[1..] + y;
    }
    WordAcross("when", j, y);
    SkipSpaceAcross(Word("when", j).value, y);
  }

  lemma WhenNeeds(j: string)
    requires Word("when", j).Some?
    ensures j != ""
  {
  }

  lemma {:induction false} HistoricalHasNoMarker(s: string)
    ensures Hits(Historical(s)) == 0
    decreases |s|
  {
    hide MarkerAt;
    if s != "" {
      match MarkerAt(s)
      case Some(rest) =>
        InertAddsNothing(Historical(rest));
        HistoricalHasNoMarker(rest);
      case None =>
        HistoricalHasNoMarker(s[1..]);
        var h := Historical(s);
        assert h[1..] == Historical(s[1..]);
        NoMarkerAtFront(s);
    }
  }

  lemma NoMarkerAtFront(s: string)
    requires s != "" && MarkerAt(s).None?
    ensures MarkerAt(Historical(s)).None?
  {
    hide MarkerAt, Historical, Opening, SkipSpace;
    var x, b := HistoricalShape(s);
    assert s == x + s[|x|..];
    if MarkerAt(x).Some? { MarkerExtends(x, s[|x|..]); }
    if b == "" {
      assert x + b == x;
    } else {
      assert b[0] == INERT[0] && b[1] == INERT[1];
      SkipNothing(b);
      MarkerAcross(x, b);
    }
  }

  lemma SkipNothing(b: string)
    requires b != "" && !IsSpace(b[0])
    ensures SkipSpace(b) == b
  {
  }

  lemma {:induction false} NothingToMakeInert(s: string)
    requires Hits(s) == 0
    ensures Historical(s) == s
  {
    if s != "" { NothingToMakeInert(s[1..]); }
  }

  /** `historical_notes` leaves no marker, and a second application changes nothing. */
  lemma HistoricalIsInert(s: string)
    ensures MarkerCount(Historical(s)) == 0
    ensures Historical(Historical(s)) == Historical(s)
  {
    HistoricalHasNoMarker(s);
    CountIsHits(Historical(s));
    NothingToMakeInert(Historical(s));
  }

  /** It also leaves an opening at the end of the text exactly where there was one. */
  lemma {:induction false} HistoricalKeepsOpenTail(s: string)
    ensures OpenTail(Historical(s)) == OpenTail(s)
    decreases |s|
  {
    hide MarkerAt, OpenAt;
    if s != "" {
      match MarkerAt(s)
      case Some(rest) =>
        InertKeepsOpenTail(Historical(rest));
        HistoricalKeepsOpenTail(rest);
        MarkerKeepsOpenTail(s);
      case None =>
        HistoricalKeepsOpenTail(s[1..]);
        assert Historical(s)[1..] == Historical(s[1..]);
        SameOpening(s);
    }
  }

  lemma SameOpening(s: string)
    requires s != "" && MarkerAt(s).None?
    ensures OpenAt(Historical(s)) == OpenAt(s)
  {
    hide MarkerAt, Historical, Opening, SkipSpace;
    var x, b := HistoricalShape(s);
    if b == "" {
      assert x + b == x;
    } else {
      assert b[0] == INERT[0] && b[1] == INERT[1];
      SkipNothing(b);
      OpeningAcross(x, b);
      MarkerIsOpening(s[|x|..]);
      MarkerStartsWithR(s[|x|..]);
      assert s[|x|..][0] == s[|x|];
      if OpenAt(s) { OpeningShape(s); }
    }
  }

  lemma MarkerIsOpening(s: string)
    requires MarkerAt(s).Some?
    ensures Opening(s).Some?
  {
  }

  lemma MarkerKeepsOpenTail(s: string)
    requires MarkerAt(s).Some?
    ensures OpenTail(s) == OpenTail(MarkerAt(s).value)
  {
    var rest := MarkerAt(s).value;
    OpeningShape(s);
    var n := |s| - |rest|;
    var x := s[1..n];
    assert forall i | 0 <= i < |x| :: x[i] == s[i + 1];
    assert s[1..] == x + rest;
    SkipNoRTail(x, rest);
  }

  lemma {:induction false} SkipNoRTail(x: string, t: string)
    requires forall i | 0 <= i < |x| :: !IsR(x[i])
    ensures OpenTail(x + t) == OpenTail(t)
  {
    hide OpenAt;
    if x == "" {
      assert x + t == t;
    } else {
      assert (x + t)[1..] == x[1..] + t;
      SkipNoRTail(x[1..], t);
      NotOpenHere(x + t);
    }
  }

  lemma NotOpenHere(s: string)
    requires s != "" && !IsR(s[0])
    ensures !OpenAt(s)
  {
    NoMarkerHere(s);
  }

  lemma InertKeepsOpenTail(t: string)
    ensures OpenTail(INERT + t) == OpenTail(t)
  {
    hide OpenTail, OpenAt;
    var c := "esume condition:" + t;
    var d := "ical " + (['r'] + c);
    assert INERT + t == "histo" + (['r'] + d);
    SkipNoRTail("histo", ['r'] + d);
    FirstRTail(d);
    SkipNoRTail("ical ", ['r'] + c);
    SecondRTail(t);
    SkipNoRTail("esume condition:", t);
  }

  lemma FirstRTail(d: string)
    requires |d| > 0 && d[0] == 'i'
    ensures OpenTail(['r'] + d) == OpenTail(d)
  {
    assert (['r'] + d)[1..] == d;
    assert Word("resume", ['r'] + d).None?;
  }

  lemma SecondRTail(t: string)
    ensures OpenTail(['r'] + ("esume condition:" + t)) == OpenTail("esume condition:" + t)
  {
    hide Opening;
    var s := ['r'] + ("esume condition:" + t);
    assert s[1..] == "esume condition:" + t;
    WordSplit(t);
  }
}
