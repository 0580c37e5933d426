/** `brief` of shantytown/cycle_advice.py: labelled parts cut to a budget of characters, a fair share each. */
module CycleBrief {
  import opened Basics
  import opened TextStrip
  import opened Sorting

  datatype Part = Part(label_: string, body: string)

  // ---------- shares, over lengths in ascending order ----------

  function Sum(ns: seq<nat>): nat {
    if ns == [] then 0 else ns[0] + Sum(ns[1..])
  }

  /** An equal share, rounded down. */
  function Share(budget: nat, n: nat): (share: nat)
    requires n > 0
    ensures share <= budget
  {
    OneShare(budget / n, n, budget % n);
    budget / n
  }

  lemma OneShare(q: nat, n: nat, r: nat)
    requires n > 0
    ensures q <= n * q + r
  {
  }

  predicate Ascending(ns: seq<nat>) {
    forall i, j | 0 <= i < j < |ns| :: ns[i] <= ns[j]
  }

  /** What each part keeps: an equal share of what is left, or all of it when it is shorter. */
  function Fill(lengths: seq<nat>, budget: nat): (kept: seq<nat>)
    ensures |kept| == |lengths|
    ensures forall i | 0 <= i < |kept| :: kept[i] <= lengths[i]
    ensures Sum(kept) <= budget
  {
    if lengths == [] then []
    else
      var keep := Min(lengths[0], Share(budget, |lengths|));
      var rest := Fill(lengths[1..], budget - keep);
      assert ([keep] + rest)[1..] == rest;
      [keep] + rest
  }

  lemma {:induction false} SumAtLeast(ns: seq<nat>, least: nat)
    requires forall i | 0 <= i < |ns| :: ns[i] >= least
    ensures Sum(ns) >= |ns| * least
  {
    if ns != [] {
      SumAtLeast(ns[1..], least);
      OneLess(|ns|, least);
    }
  }

  lemma OneLess(n: nat, a: nat)
    requires n > 0
    ensures n * a == (n - 1) * a + a
  {
  }

  lemma OneUp(n: int, a: int)
    ensures n * (a + 1) == n * a + n
  {
  }

  lemma Times(n: int, a: int, b: int)
    ensures n >= 0 && a <= b ==> n * a <= n * b
  {
  }

  lemma Shares(budget: nat, n: nat)
    requires n > 0
    ensures n * (Share(budget, n)) <= budget < n * (Share(budget, n)) + n
  {
  }

  /** Dividing what one share leaves among one less gives no less. */
  lemma ShareGrows(budget: nat, n: nat, keep: nat)
    requires n > 1 && keep <= Share(budget, n)
    ensures keep <= budget && Share(budget - keep, n - 1) >= Share(budget, n)
  {
    hide Share;
    var q := Share(budget, n);
    Shares(budget, n);
    OneLess(n, q);
    var left := budget - keep;
    var r := Share(left, n - 1);
    Shares(left, n - 1);
    assert (n - 1) * q <= left < (n - 1) * r + (n - 1);
    Times(n - 1, r + 1, q);
    OneUp(n - 1, r);
  }

  /** Where a cut-off share lies between the lengths around it. */
  lemma Between(budget: nat, n: nat, q: nat)
    requires n > 0 && n * q <= budget <= n * q + n
    ensures Share(budget, n) == q || (Share(budget, n) == q + 1 && budget == n * q + n)
  {
    hide Share;
    var share := Share(budget, n);
    Shares(budget, n);
    Times(n, share + 1, q);
    OneUp(n, share);
    Times(n, q + 1, share);
    OneUp(n, q);
    Times(n, q + 2, share);
    OneUp(n, q + 1);
  }

  lemma AscendingTail(ns: seq<nat>)
    requires Ascending(ns) && ns != []
    ensures Ascending(ns[1..]) && forall i | 0 <= i < |ns[1..]| :: ns[1..][i] >= ns[0]
  {
  }

  /** Nothing of the budget is wasted. */
  lemma {:induction false} FillUsesAll(lengths: seq<nat>, budget: nat)
    requires Ascending(lengths)
    ensures Sum(Fill(lengths, budget)) == Min(Sum(lengths), budget)
  {
    hide Share, Ascending;
    if lengths != [] {
      AscendingTail(lengths);
      var share := Share(budget, |lengths|);
      var keep := Min(lengths[0], share);
      var rest := Fill(lengths[1..], budget - keep);
      assert ([keep] + rest)[1..] == rest;
      FillUsesAll(lengths[1..], budget - keep);
      if share < lengths[0] {
        CutMeansShort(lengths[1..], budget, share);
      }
    }
  }

  lemma CutMeansShort(others: seq<nat>, budget: nat, share: nat)
    requires share == Share(budget, |others| + 1) && forall i | 0 <= i < |others| :: others[i] > share
    ensures budget - share <= Sum(others)
  {
    hide Share;
    var n := |others| + 1;
    SumAtLeast(others, share + 1);
    Shares(budget, n);
    OneLess(n, share);
    OneUp(n - 1, share);
  }

  /** Every part keeps the first share or all it has. */
  lemma {:induction false} AtLeastShare(lengths: seq<nat>, budget: nat)
    requires lengths != []
    ensures forall i | 0 <= i < |lengths| :: Fill(lengths, budget)[i] >= Min(lengths[i], Share(budget, |lengths|))
  {
    hide Share;
    var n := |lengths|;
    var keep := Min(lengths[0], Share(budget, n));
    if n > 1 {
      ShareGrows(budget, n, keep);
      AtLeastShare(lengths[1..], budget - keep);
    }
  }

  /** Once parts are cut, what they keep differs by one at most. */
  lemma {:induction false} Level(lengths: seq<nat>, budget: nat, q: nat, n: nat)
    requires n == |lengths| && n * q <= budget <= n * q + n
    requires forall i | 0 <= i < |lengths| :: lengths[i] > q
    ensures forall i | 0 <= i < |lengths| :: q <= Fill(lengths, budget)[i] <= q + 1
  {
    hide Share;
    if lengths != [] {
      Between(budget, n, q);
      var keep := Min(lengths[0], Share(budget, n));
      assert q <= keep <= q + 1;
      OneLess(n, q);
      Shares(budget, n);
      assert keep == q + 1 ==> budget - keep == (n - 1) * q + (n - 1);
      assert keep == q ==> budget - keep <= (n - 1) * q + (n - 1);
      Level(lengths[1..], budget - keep, q, n - 1);
    }
  }

  /** Max-min fairness: whoever is cut keeps, to within one, as much as anybody. */
  lemma {:induction false} FillIsFair(lengths: seq<nat>, budget: nat)
    requires Ascending(lengths)
    ensures forall i, j | 0 <= i < |lengths| && 0 <= j < |lengths| ::
      Fill(lengths, budget)[i] < lengths[i] ==> Fill(lengths, budget)[j] <= Fill(lengths, budget)[i] + 1
  {
    hide Share, Fill, Ascending;
    if lengths != [] {
      var n := |lengths|;
      var share := Share(budget, n);
      Shares(budget, n);
      if share < lengths[0] {
        AllAbove(lengths, share);
        Level(lengths, budget, share, n);
      } else {
        AscendingTail(lengths);
        FillIsFair(lengths[1..], budget - lengths[0]);
        UncutFirst(lengths, budget);
      }
    }
  }

  lemma AllAbove(lengths: seq<nat>, least: nat)
    requires Ascending(lengths) && lengths != [] && least < lengths[0]
    ensures forall i | 0 <= i < |lengths| :: lengths[i] > least
  {
  }

  /** A first part kept whole is no longer than what anybody else keeps. */
  lemma UncutFirst(lengths: seq<nat>, budget: nat)
    requires lengths != [] && Ascending(lengths) && lengths[0] <= Share(budget, |lengths|)
    ensures Fill(lengths, budget) == [lengths[0]] + Fill(lengths[1..], budget - lengths[0])
    ensures forall i | 0 <= i < |lengths| :: Fill(lengths, budget)[i] >= lengths[0]
  {
    hide Share;
    AtLeastShare(lengths, budget);
  }

  // ---------- parts ----------

  /** The parts that have something in them, stripped. */
  function Cleaned(parts: seq<Part>): seq<Part> {
    if parts == [] then []
    else (if Strip(parts[0].body) == "" then []
          else [Part(parts[0].label_, Strip(parts[0].body))]) + Cleaned(parts[1..])
  }

  /** This part is the one at that place, stripped of blanks and not empty. */
  predicate CleanAt(parts: seq<Part>, p: Part, place: nat) {
    place < |parts| && p.label_ == parts[place].label_ && p.body == Strip(parts[place].body) && p.body != ""
  }

  /** The places of the parts that are kept: in order, and all that are not blank. */
  ghost predicate CleanPlaces(parts: seq<Part>, kept: seq<Part>, places: seq<nat>) {
    && |places| == |kept| && (forall k | 0 <= k < |places| :: CleanAt(parts, kept[k], places[k]))
    && (forall j, k | 0 <= j < k < |places| :: places[j] < places[k])
    && (forall i: nat | i < |parts| && Strip(parts[i].body) != "" :: i in places)
  }

  lemma {:induction false} CleanedMeans(parts: seq<Part>) returns (places: seq<nat>)
    ensures CleanPlaces(parts, Cleaned(parts), places)
  {
    hide Strip, CleanPlaces;
    if parts == [] {
      places := [];
      assert CleanPlaces(parts, [], places) by { NoPlaces(); }
    } else {
      var rest := CleanedMeans(parts[1..]);
      places := MorePlaces(parts, Cleaned(parts[1..]), rest);
    }
  }

  lemma NoPlaces()
    ensures CleanPlaces([], [], [])
  {
  }

  function Later(places: seq<nat>): seq<nat> {
    seq(|places|, k requires 0 <= k < |places| => places[k] + 1)
  }

  /** The same places with one part more in front, all but the first of the parts that are not blank. */
  lemma LaterPlaces(parts: seq<Part>, kept: seq<Part>, rest: seq<nat>)
    requires parts != [] && CleanPlaces(parts[1..], kept, rest)
    ensures var later := Later(rest);
      && |later| == |kept| && (forall k | 0 <= k < |later| :: CleanAt(parts, kept[k], later[k]))
      && (forall j, k | 0 <= j < k < |later| :: later[j] < later[k]) && (forall k | 0 <= k < |later| :: later[k] > 0)
      && (forall i: nat | 0 < i < |parts| && Strip(parts[i].body) != "" :: i in later)
  {
    hide Strip, CleanAt;
    var later := Later(rest);
    forall k | 0 <= k < |later| ensures CleanAt(parts, kept[k], later[k]) {
      CleanLater(parts, kept[k], rest[k]);
    }
    forall i: nat | 0 < i < |parts| && Strip(parts[i].body) != "" ensures i in later {
      PartLater(parts, i);
      assert i - 1 in rest;
      InLater(rest, i - 1);
    }
  }

  lemma CleanLater(parts: seq<Part>, p: Part, place: nat)
    requires parts != [] && CleanAt(parts[1..], p, place)
    ensures CleanAt(parts, p, place + 1)
  {
    hide Strip;
  }

  lemma PartLater(parts: seq<Part>, i: nat)
    requires 0 < i < |parts|
    ensures parts[1..][i - 1] == parts[i]
  {
  }

  lemma InLater(places: seq<nat>, i: nat)
    requires i in places
    ensures i + 1 in Later(places)
  {
    var k :| 0 <= k < |places| && places[k] == i;
    assert Later(places)[k] == i + 1;
  }

  lemma MorePlaces(parts: seq<Part>, kept: seq<Part>, rest: seq<nat>) returns (places: seq<nat>)
    requires parts != [] && CleanPlaces(parts[1..], kept, rest)
    ensures var body := Strip(parts[0].body);
      CleanPlaces(parts, (if body == "" then [] else [Part(parts[0].label_, body)]) + kept, places)
  {
    hide Strip, Later, CleanAt, CleanPlaces;
    LaterPlaces(parts, kept, rest);
    var body, later := Strip(parts[0].body), Later(rest);
    if body == "" {
      places := later;
      NoFirstPlace(parts, kept, later);
      assert [] + kept == kept;
    } else {
      places := [0] + later;
      FirstIsClean(parts);
      FirstPlace(parts, Part(parts[0].label_, body), kept, later);
    }
  }

  lemma FirstIsClean(parts: seq<Part>)
    requires parts != [] && Strip(parts[0].body) != ""
    ensures CleanAt(parts, Part(parts[0].label_, Strip(parts[0].body)), 0)
  {
    hide Strip;
  }

  lemma NoFirstPlace(parts: seq<Part>, kept: seq<Part>, later: seq<nat>)
    requires |later| == |kept| && forall k | 0 <= k < |later| :: CleanAt(parts, kept[k], later[k])
    requires forall j, k | 0 <= j < k < |later| :: later[j] < later[k]
    requires parts != [] && Strip(parts[0].body) == ""
    requires forall i: nat | 0 < i < |parts| && Strip(parts[i].body) != "" :: i in later
    ensures CleanPlaces(parts, kept, later)
  {
    hide Strip, CleanAt;
  }

  lemma FirstPlace(parts: seq<Part>, first: Part, kept: seq<Part>, later: seq<nat>)
    requires CleanAt(parts, first, 0) && |later| == |kept|
    requires forall k | 0 <= k < |later| :: CleanAt(parts, kept[k], later[k]) && later[k] > 0
    requires forall j, k | 0 <= j < k < |later| :: later[j] < later[k]
    requires forall i: nat | 0 < i < |parts| && Strip(parts[i].body) != "" :: i in later
    ensures CleanPlaces(parts, [first] + kept, [0] + later)
  {
    hide Strip, CleanAt;
  }

  function Lengths(parts: seq<Part>): seq<nat> {
    seq(|parts|, i requires 0 <= i < |parts| => |parts[i].body|)
  }

  function Shorter(a: Part, b: Part): bool {
    |a.body| < |b.body|
  }

  /** Python's dict: a later value for a label takes the place of the earlier one. */
  function Put(d: seq<Part>, p: Part): seq<Part> {
    if d == [] then [p] else if d[0].label_ == p.label_ then [p] + d[1..] else [d[0]] + Put(d[1..], p)
  }

  function Get(d: seq<Part>, label_: string): string {
    if d == [] then "" else if d[0].label_ == label_ then d[0].body else Get(d[1..], label_)
  }

  /** What the loop leaves in the dict. */
  function Spread(parts: seq<Part>, budget: nat, out: seq<Part>): seq<Part> {
    if parts == [] then out
    else
      var cut := parts[0].body[..Min(|parts[0].body|, Share(budget, |parts|))];
      Spread(parts[1..], budget - |cut|, Put(out, Part(parts[0].label_, cut)))
  }

  function Chosen(d: seq<Part>, parts: seq<Part>): seq<Part> {
    seq(|parts|, i requires 0 <= i < |parts| => Part(parts[i].label_, Get(d, parts[i].label_)))
  }

  /** The dict these parts make, each put in turn. */
  function PutAll(d: seq<Part>, parts: seq<Part>): seq<Part>
    decreases parts
  {
    if parts == [] then d else PutAll(Put(d, parts[0]), parts[1..])
  }

  datatype Brief = Brief(parts: seq<Part>, truncated: bool, chars: nat, fullChars: nat)

  function Limit(chars: int, maxChars: nat): nat {
    if chars < 0 then 0 else if chars < maxChars then chars else maxChars
  }

  function BriefOf(parts: seq<Part>, chars: int, maxChars: nat): Brief {
    var kept := Cleaned(parts);
    var out := Spread(Sort(kept, Shorter), Limit(chars, maxChars), []);
    Brief(PutAll([], Chosen(out, kept)), Sum(Lengths(kept)) > Sum(Lengths(out)), Limit(chars, maxChars),
          Sum(Lengths(kept)))
  }

  /** The loop of `brief`. */
  method MakeBrief(parts: seq<Part>, chars: int, maxChars: nat) returns (brief: Brief)
    ensures brief == BriefOf(parts, chars, maxChars)
  {
    var limit := Limit(chars, maxChars);
    var kept := Cleaned(parts);
    var sorted := Sort(kept, Shorter);
    var budget: nat, out := limit, [];
    for i := 0 to |sorted|
      invariant Spread(sorted, limit, []) == Spread(sorted[i..], budget, out)
    {
      var share := Share(budget, |sorted| - i);
      var body := sorted[i].body;
      var cut := body[..Min(|body|, share)];
      assert sorted[i..][0] == sorted[i] && sorted[i..][1..] == sorted[i + 1..];
      out := Put(out, Part(sorted[i].label_, cut));
      budget := budget - |cut|;
    }
    return Brief(PutAll([], Chosen(out, kept)), Sum(Lengths(kept)) > Sum(Lengths(out)), limit, Sum(Lengths(kept)));
  }

  predicate DistinctLabels(parts: seq<Part>) {
    forall i, j | 0 <= i < j < |parts| :: parts[i].label_ != parts[j].label_
  }

  /** Each of these parts, cut to its length. */
  function Cut(parts: seq<Part>, lengths: seq<nat>): seq<Part>
    requires |parts| == |lengths| && forall i | 0 <= i < |parts| :: lengths[i] <= |parts[i].body|
  {
    seq(|parts|, i requires 0 <= i < |parts| => Part(parts[i].label_, parts[i].body[..lengths[i]]))
  }

  lemma {:induction false} PutAppends(d: seq<Part>, p: Part)
    requires forall i | 0 <= i < |d| :: d[i].label_ != p.label_
    ensures Put(d, p) == d + [p]
  {
    if d != [] { PutAppends(d[1..], p); }
  }

  /** None of these labels is in the dict yet. */
  predicate Unused(out: seq<Part>, parts: seq<Part>) {
    forall i, j | 0 <= i < |out| && 0 <= j < |parts| :: out[i].label_ != parts[j].label_
  }

  lemma UnusedStep(out: seq<Part>, parts: seq<Part>, p: Part)
    requires DistinctLabels(parts) && Unused(out, parts) && parts != [] && p.label_ == parts[0].label_
    ensures Put(out, p) == out + [p]
    ensures DistinctLabels(parts[1..]) && Unused(out + [p], parts[1..])
  {
    forall i | 0 <= i < |out| ensures out[i].label_ != p.label_ { assert out[i].label_ != parts[0].label_; }
    PutAppends(out, p);
  }

  lemma CutStep(parts: seq<Part>, budget: nat)
    requires parts != []
    ensures var keep := Min(|parts[0].body|, Share(budget, |parts|));
      Cut(parts, Fill(Lengths(parts), budget))
        == [Part(parts[0].label_, parts[0].body[..keep])] + Cut(parts[1..], Fill(Lengths(parts[1..]), budget - keep))
  {
    hide Share;
    assert Lengths(parts)[1..] == Lengths(parts[1..]);
  }

  lemma {:induction false} SpreadCuts(parts: seq<Part>, budget: nat, out: seq<Part>)
    requires DistinctLabels(parts) && Unused(out, parts)
    ensures Spread(parts, budget, out) == out + Cut(parts, Fill(Lengths(parts), budget))
  {
    hide Share, Cut, Unused, DistinctLabels, Put, Fill;
    if parts != [] {
      var cut := parts[0].body[..Min(|parts[0].body|, Share(budget, |parts|))];
      var p := Part(parts[0].label_, cut);
      UnusedStep(out, parts, p);
      CutStep(parts, budget);
      SpreadCuts(parts[1..], budget - |cut|, out + [p]);
      var rest := Cut(parts[1..], Fill(Lengths(parts[1..]), budget - |cut|));
      assert (out + [p]) + rest == out + ([p] + rest);
    } else {
      assert out + Cut(parts, Fill(Lengths(parts), budget)) == out by { CutNothing(budget); }
    }
  }

  lemma CutNothing(budget: nat)
    ensures Cut([], Fill(Lengths([]), budget)) == []
  {
  }

  // ---------- the theorem ----------

  lemma ShorterIsOrder()
    ensures WeakOrder(Shorter)
  {
  }

  /** A sum over parts does not depend on their order. */
  lemma {:induction false} SumOfInsert(p: Part, parts: seq<Part>)
    ensures Sum(Lengths(Insert(p, parts, Shorter))) == |p.body| + Sum(Lengths(parts))
  {
    assert Lengths([p] + parts) == [|p.body|] + Lengths(parts);
    assert ([|p.body|] + Lengths(parts))[1..] == Lengths(parts);
    if parts != [] && Shorter(parts[0], p) {
      SumOfInsert(p, parts[1..]);
      var rest := Insert(p, parts[1..], Shorter);
      assert Lengths([parts[0]] + rest)[1..] == Lengths(rest);
      assert Lengths(parts)[1..] == Lengths(parts[1..]);
    }
  }

  lemma {:induction false} SumOfSort(parts: seq<Part>)
    ensures Sum(Lengths(Sort(parts, Shorter))) == Sum(Lengths(parts))
  {
    if parts != [] {
      SumOfSort(parts[1..]);
      SumOfInsert(parts[0], Sort(parts[1..], Shorter));
      assert Lengths(parts)[1..] == Lengths(parts[1..]);
    }
  }

  lemma {:induction false} GetPart(d: seq<Part>, i: nat)
    requires i < |d| && DistinctLabels(d)
    ensures Get(d, d[i].label_) == d[i].body
  {
    if i > 0 { GetPart(d[1..], i - 1); }
  }

  lemma SortedKeepsLabels(parts: seq<Part>)
    requires DistinctLabels(parts)
    ensures DistinctLabels(Sort(parts, Shorter)) && |Sort(parts, Shorter)| == |parts|
    ensures InOrder(Sort(parts, Shorter), Shorter)
    ensures forall p :: p in Sort(parts, Shorter) <==> p in parts
  {
    hide Sort, WeakOrder;
    ShorterIsOrder();
    SortSorts(parts, Shorter);
    var sorted := Sort(parts, Shorter);
    assert forall p :: p in sorted <==> p in multiset(sorted);
    assert forall p :: p in parts <==> p in multiset(parts);
    DistinctPermutes(parts, sorted);
  }

  lemma DistinctPermutes(a: seq<Part>, b: seq<Part>)
    requires multiset(a) == multiset(b) && DistinctLabels(a)
    ensures DistinctLabels(b)
  {
    forall i, j | 0 <= i < j < |b| ensures b[i].label_ != b[j].label_ {
      assert b[i] in multiset(a) && b[j] in multiset(a);
      if b[i].label_ == b[j].label_ {
        OnlyOne(a, b[i], b[j]);
        Twice(b, i, j);
        Once(a, b[i]);
        assert false;
      }
    }
  }

  lemma OnlyOne(parts: seq<Part>, p: Part, q: Part)
    requires DistinctLabels(parts) && p in parts && q in parts && p.label_ == q.label_
    ensures p == q
  {
  }

  lemma Twice(s: seq<Part>, i: nat, j: nat)
    requires i < j < |s| && s[i] == s[j]
    ensures multiset(s)[s[i]] >= 2
  {
    assert s == s[..i] + [s[i]] + s[i + 1..j] + [s[j]] + s[j + 1..];
  }

  lemma {:induction false} Once(parts: seq<Part>, p: Part)
    requires DistinctLabels(parts) && p in parts
    ensures multiset(parts)[p] == 1
  {
    var i :| 0 <= i < |parts| && parts[i] == p;
    assert parts == parts[..i] + [p] + parts[i + 1..];
    assert p !in parts[..i] && p !in parts[i + 1..];
  }

  /** Where each part stands in the sorted order, and what it keeps there. */
  lemma KeptAt(kept: seq<Part>, budget: nat, p: Part) returns (k: nat)
    requires DistinctLabels(kept) && p in kept
    ensures var sorted := Sort(kept, Shorter);
      && k < |sorted| && sorted[k] == p
      && Get(Spread(sorted, budget, []), p.label_) == p.body[..Fill(Lengths(sorted), budget)[k]]
  {
    hide Sort, Spread, Share, Fill, Get, Cut, DistinctLabels, InOrder;
    SortedKeepsLabels(kept);
    var sorted := Sort(kept, Shorter);
    assert Unused([], sorted);
    SpreadCuts(sorted, budget, []);
    k :| 0 <= k < |sorted| && sorted[k] == p;
    CutAt(sorted, Fill(Lengths(sorted), budget), k);
    assert [] + Cut(sorted, Fill(Lengths(sorted), budget)) == Cut(sorted, Fill(Lengths(sorted), budget));
  }

  lemma CutAt(parts: seq<Part>, lengths: seq<nat>, k: nat)
    requires |parts| == |lengths| && forall i | 0 <= i < |parts| :: lengths[i] <= |parts[i].body|
    requires k < |parts| && DistinctLabels(parts)
    ensures Get(Cut(parts, lengths), parts[k].label_) == parts[k].body[..lengths[k]]
  {
    var out := Cut(parts, lengths);
    forall i, j | 0 <= i < j < |out| ensures out[i].label_ != out[j].label_ {
      assert parts[i].label_ != parts[j].label_;
    }
    GetPart(out, k);
  }

  lemma AscendingLengths(parts: seq<Part>)
    requires InOrder(parts, Shorter)
    ensures Ascending(Lengths(parts))
  {
  }

  /** With distinct labels a brief uses exactly the characters it may, says it is truncated exactly when
      there were more, and treats its parts max-min fairly. */
  lemma BriefTheorem(parts: seq<Part>, chars: int, maxChars: nat)
    requires DistinctLabels(Cleaned(parts))
    ensures var kept, brief := Cleaned(parts), BriefOf(parts, chars, maxChars);
      && brief.chars == (if chars <= 0 then 0 else Min(chars, maxChars)) && brief.fullChars == Sum(Lengths(kept))
      && |brief.parts| == |kept|
      && (forall i | 0 <= i < |kept| :: brief.parts[i].label_ == kept[i].label_ && brief.parts[i].body <= kept[i].body)
      && Sum(Lengths(brief.parts)) == Min(Sum(Lengths(kept)), brief.chars)
      && (brief.truncated <==> Sum(Lengths(kept)) > brief.chars)
      && (forall i, j | 0 <= i < |kept| && 0 <= j < |kept| ::
            |brief.parts[i].body| < |kept[i].body| ==> |brief.parts[j].body| <= |brief.parts[i].body| + 1)
  {
    hide Sort, Spread, Share, Fill, Sum, Get, PutAll;
    var kept, brief := Cleaned(parts), BriefOf(parts, chars, maxChars);
    var sorted := Sort(kept, Shorter);
    var lengths, budget := Lengths(sorted), brief.chars;
    ChosenIsDict(kept, budget);
    SortedKeepsLabels(kept);
    AscendingLengths(sorted);
    FillIsFair(lengths, budget);
    forall i, j | 0 <= i < |kept| && 0 <= j < |kept|
      ensures brief.parts[i].body <= kept[i].body
      ensures |brief.parts[i].body| < |kept[i].body| ==> |brief.parts[j].body| <= |brief.parts[i].body| + 1
    {
      var a := KeptAt(kept, budget, kept[i]);
      var b := KeptAt(kept, budget, kept[j]);
    }
    BriefTotal(kept, budget);
  }

  lemma {:induction false} PutAllDistinct(d: seq<Part>, parts: seq<Part>)
    requires DistinctLabels(parts) && Unused(d, parts)
    ensures PutAll(d, parts) == d + parts
    decreases parts
  {
    hide Put, Unused, DistinctLabels;
    if parts != [] {
      UnusedStep(d, parts, parts[0]);
      PutAllDistinct(d + [parts[0]], parts[1..]);
      assert (d + [parts[0]]) + parts[1..] == d + parts;
    } else {
      assert d + parts == d;
    }
  }

  lemma ChosenIsDict(kept: seq<Part>, budget: nat)
    requires DistinctLabels(kept)
    ensures var chosen := Chosen(Spread(Sort(kept, Shorter), budget, []), kept); PutAll([], chosen) == chosen
  {
    hide Sort, Spread, Share, Get, PutAll;
    var chosen := Chosen(Spread(Sort(kept, Shorter), budget, []), kept);
    assert forall i | 0 <= i < |chosen| :: chosen[i].label_ == kept[i].label_;
    PutAllDistinct([], chosen);
    assert [] + chosen == chosen;
  }

  /** The characters in the dict and in the brief made from it. */
  lemma BriefTotal(kept: seq<Part>, budget: nat)
    requires DistinctLabels(kept)
    ensures var out := Spread(Sort(kept, Shorter), budget, []);
      && Sum(Lengths(out)) == Min(Sum(Lengths(kept)), budget)
      && Sum(Lengths(Chosen(out, kept))) == Sum(Lengths(out))
  {
    hide Sort, Spread, Share, Fill, Sum, Get;
    SortedKeepsLabels(kept);
    var sorted := Sort(kept, Shorter);
    var out := Spread(sorted, budget, []);
    SpreadCuts(sorted, budget, []);
    var fill := Fill(Lengths(sorted), budget);
    assert out == Cut(sorted, fill);
    assert Lengths(out) == fill;
    AscendingLengths(sorted);
    FillUsesAll(Lengths(sorted), budget);
    SumOfSort(kept);
    ChosenTotal(kept, sorted, out);
  }

  /** Taking the parts in another order takes the same characters. */
  lemma ChosenTotal(kept: seq<Part>, sorted: seq<Part>, out: seq<Part>)
    requires sorted == Sort(kept, Shorter) && |out| == |sorted|
    requires DistinctLabels(kept) && DistinctLabels(sorted)
    requires forall i | 0 <= i < |out| :: out[i].label_ == sorted[i].label_
    ensures Sum(Lengths(Chosen(out, kept))) == Sum(Lengths(out))
  {
    ChosenInOrder(out, sorted);
    SumOfSortBy(kept, out);
  }

  lemma ChosenInOrder(out: seq<Part>, sorted: seq<Part>)
    requires |out| == |sorted| && DistinctLabels(sorted)
    requires forall i | 0 <= i < |out| :: out[i].label_ == sorted[i].label_
    ensures Chosen(out, sorted) == out
  {
    forall i | 0 <= i < |out| ensures Chosen(out, sorted)[i] == out[i] { GetPart(out, i); }
  }

  lemma {:induction false} SumOfInsertBy(p: Part, parts: seq<Part>, d: seq<Part>)
    ensures Sum(Lengths(Chosen(d, Insert(p, parts, Shorter)))) == |Get(d, p.label_)| + Sum(Lengths(Chosen(d, parts)))
  {
    hide Get;
    ChosenCons(d, p, parts);
    if parts != [] && Shorter(parts[0], p) {
      SumOfInsertBy(p, parts[1..], d);
      ChosenCons(d, parts[0], Insert(p, parts[1..], Shorter));
      ChosenCons(d, parts[0], parts[1..]);
      assert parts == [parts[0]] + parts[1..];
    }
  }

  lemma ChosenCons(d: seq<Part>, p: Part, parts: seq<Part>)
    ensures Sum(Lengths(Chosen(d, [p] + parts))) == |Get(d, p.label_)| + Sum(Lengths(Chosen(d, parts)))
  {
    hide Get;
    assert Lengths(Chosen(d, [p] + parts))[1..] == Lengths(Chosen(d, parts));
  }

  lemma {:induction false} SumOfSortBy(parts: seq<Part>, d: seq<Part>)
    ensures Sum(Lengths(Chosen(d, Sort(parts, Shorter)))) == Sum(Lengths(Chosen(d, parts)))
  {
    hide Get, Insert;
    if parts != [] {
      SumOfSortBy(parts[1..], d);
      SumOfInsertBy(parts[0], Sort(parts[1..], Shorter), d);
      ChosenCons(d, parts[0], parts[1..]);
      assert parts == [parts[0]] + parts[1..];
    }
  }
}
