/** Exactly when `brief` of shantytown/cycle_advice.py keeps its word: labels shared by parts that keep something
    lose characters. */
module CycleBriefExact {
  import opened Basics
  import opened TextStrip
  import opened Sorting
  import opened CycleBrief

  // ---------- a dict that parts are put into ----------

  /** The characters that later parts overwrite. */
  function Lost(d: seq<Part>, parts: seq<Part>): nat
    decreases parts
  {
    if parts == [] then 0 else |Get(d, parts[0].label_)| + Lost(Put(d, parts[0]), parts[1..])
  }

  lemma {:induction false} PutSum(d: seq<Part>, p: Part)
    ensures Sum(Lengths(Put(d, p))) + |Get(d, p.label_)| == Sum(Lengths(d)) + |p.body|
  {
    if d == [] {
      assert Lengths([p])[1..] == [] && Lengths(d) == [];
    } else {
      assert Lengths(d)[1..] == Lengths(d[1..]);
      if d[0].label_ == p.label_ {
        assert Lengths([p] + d[1..])[1..] == Lengths(d[1..]);
      } else {
        PutSum(d[1..], p);
        assert Lengths([d[0]] + Put(d[1..], p))[1..] == Lengths(Put(d[1..], p));
      }
    }
  }

  lemma {:induction false} PutGet(d: seq<Part>, p: Part, name: string)
    ensures Get(Put(d, p), name) == if name == p.label_ then p.body else Get(d, name)
  {
    if d != [] && d[0].label_ != p.label_ { PutGet(d[1..], p, name); }
  }

  /** Put in turn, parts add what they hold and take what they overwrite. */
  lemma {:induction false} PutAllSum(d: seq<Part>, parts: seq<Part>)
    ensures Sum(Lengths(PutAll(d, parts))) + Lost(d, parts) == Sum(Lengths(d)) + Sum(Lengths(parts))
    decreases parts
  {
    hide Put, Get;
    if parts != [] {
      PutSum(d, parts[0]);
      PutAllSum(Put(d, parts[0]), parts[1..]);
      assert Lengths(parts)[1..] == Lengths(parts[1..]);
    } else {
      assert Lengths(parts) == [];
    }
  }

  lemma {:induction false} PutAllAppend(d: seq<Part>, parts: seq<Part>, p: Part)
    ensures PutAll(d, parts + [p]) == Put(PutAll(d, parts), p)
    decreases parts
  {
    hide Put;
    if parts == [] {
      assert (parts + [p])[0] == p && (parts + [p])[1..] == [];
    } else {
      assert (parts + [p])[0] == parts[0] && (parts + [p])[1..] == parts[1..] + [p];
      PutAllAppend(Put(d, parts[0]), parts[1..], p);
    }
  }

  /** The part at `i` overwrites nothing. */
  predicate Clear(d: seq<Part>, parts: seq<Part>, i: nat)
    requires i < |parts|
  {
    Get(PutAll(d, parts[..i]), parts[i].label_) == ""
  }

  lemma {:induction false} LostNothing(d: seq<Part>, parts: seq<Part>)
    ensures Lost(d, parts) == 0 <==> forall i | 0 <= i < |parts| :: Clear(d, parts, i)
    decreases parts
  {
    hide Put, Get;
    if parts != [] {
      var d', rest := Put(d, parts[0]), parts[1..];
      LostNothing(d', rest);
      assert Clear(d, parts, 0) <==> Get(d, parts[0].label_) == "";
      forall i | 0 <= i < |rest| ensures Clear(d', rest, i) <==> Clear(d, parts, i + 1) {
        assert parts[..i + 1][0] == parts[0] && parts[..i + 1][1..] == rest[..i];
      }
      if Lost(d', rest) == 0 && Clear(d, parts, 0) {
        forall i | 0 <= i < |parts| ensures Clear(d, parts, i) { if i > 0 { assert Clear(d', rest, i - 1); } }
      }
      if forall i | 0 <= i < |parts| :: Clear(d, parts, i) {
        forall i | 0 <= i < |rest| ensures Clear(d', rest, i) { assert Clear(d, parts, i + 1); }
      }
    }
  }

  /** Before `i` only empty parts have this label: the dict holds nothing under it. */
  lemma {:induction false} NothingUnder(parts: seq<Part>, i: nat, name: string)
    requires i <= |parts| && forall k | 0 <= k < i && parts[k].label_ == name :: parts[k].body == ""
    ensures Get(PutAll([], parts[..i]), name) == ""
    decreases i
  {
    if i > 0 {
      NothingUnder(parts, i - 1, name);
      assert parts[..i] == parts[..i - 1] + [parts[i - 1]];
      PutAllAppend([], parts[..i - 1], parts[i - 1]);
      PutGet(PutAll([], parts[..i - 1]), parts[i - 1], name);
    }
  }

  /** From `z` on no part is empty, and one of them has this label: the dict holds something under it. */
  lemma {:induction false} SomethingUnder(parts: seq<Part>, z: nat, k: nat, i: nat)
    requires z <= k < i <= |parts| && forall x | z <= x < |parts| :: parts[x].body != ""
    ensures Get(PutAll([], parts[..i]), parts[k].label_) != ""
    decreases i
  {
    assert parts[..i] == parts[..i - 1] + [parts[i - 1]];
    PutAllAppend([], parts[..i - 1], parts[i - 1]);
    PutGet(PutAll([], parts[..i - 1]), parts[i - 1], parts[k].label_);
    if k < i - 1 { SomethingUnder(parts, z, k, i - 1); }
  }

  /** Empty before `z`, and not from there on. */
  predicate EmptyUpTo(parts: seq<Part>, z: nat) {
    && z <= |parts| && (forall k | 0 <= k < z :: parts[k].body == "")
    && (forall k | z <= k < |parts| :: parts[k].body != "")
  }

  lemma TailDiffers(parts: seq<Part>, z: nat, k: nat, i: nat)
    requires z <= |parts| && DistinctLabels(parts[z..])
    ensures z <= k < i < |parts| ==> parts[k].label_ != parts[i].label_
  {
    if z <= k < i < |parts| { assert parts[z..][k - z] == parts[k] && parts[z..][i - z] == parts[i]; }
  }

  lemma DistinctLoseNothing(parts: seq<Part>, z: nat)
    requires EmptyUpTo(parts, z) && DistinctLabels(parts[z..])
    ensures Lost([], parts) == 0
  {
    hide Lost, Get, Put, PutAll;
    forall i | 0 <= i < |parts| ensures Clear([], parts, i) {
      forall k | 0 <= k < i && parts[k].label_ == parts[i].label_ ensures parts[k].body == "" {
        TailDiffers(parts, z, k, i);
      }
      NothingUnder(parts, i, parts[i].label_);
    }
    LostNothing([], parts);
  }

  lemma LosersShare(parts: seq<Part>, z: nat)
    requires EmptyUpTo(parts, z) && Lost([], parts) == 0
    ensures DistinctLabels(parts[z..])
  {
    hide Lost, Get, Put, PutAll;
    LostNothing([], parts);
    var tail := parts[z..];
    forall i, j | 0 <= i < j < |tail| ensures tail[i].label_ != tail[j].label_ {
      assert Clear([], parts, z + j);
      SomethingUnder(parts, z, z + i, z + j);
    }
  }

  // ---------- who keeps something ----------

  /** With too little for everybody, the shortest keep nothing and as many as there are characters keep one or more. */
  lemma {:induction false} FillPositive(lengths: seq<nat>, budget: nat)
    requires forall i | 0 <= i < |lengths| :: lengths[i] >= 1
    ensures var z := |lengths| - Min(budget, |lengths|);
      && (forall i | 0 <= i < z :: Fill(lengths, budget)[i] == 0)
      && (forall i | z <= i < |lengths| :: Fill(lengths, budget)[i] >= 1)
  {
    hide Share, Fill;
    if lengths != [] {
      var n := |lengths|;
      var keep := Min(lengths[0], Share(budget, n));
      ShareIsSome(budget, n);
      if n > 1 && keep > 0 { StillSome(budget, n, keep); }
      FillFirst(lengths, budget);
      FillPositive(lengths[1..], budget - keep);
      var z, z' := n - Min(budget, n), n - 1 - Min(budget - keep, n - 1);
      assert if keep == 0 then z == z' + 1 else z == z' == 0;
    }
  }

  lemma FillFirst(lengths: seq<nat>, budget: nat)
    requires lengths != []
    ensures var keep := Min(lengths[0], Share(budget, |lengths|));
      && keep <= budget && Fill(lengths, budget) == [keep] + Fill(lengths[1..], budget - keep)
      && |Fill(lengths[1..], budget - keep)| == |lengths| - 1
  {
    hide Share;
  }

  lemma ShareIsSome(budget: nat, n: nat)
    requires n > 0
    ensures Share(budget, n) <= budget
    ensures Share(budget, n) >= 1 <==> budget >= n
  {
    hide Share;
    Shares(budget, n);
    Times(n, 1, Share(budget, n));
  }

  /** Who comes next finds enough for one each, too. */
  lemma StillSome(budget: nat, n: nat, keep: nat)
    requires n > 1 && 0 < keep <= Share(budget, n)
    ensures budget - keep >= n - 1
  {
    hide Share;
    ShareGrows(budget, n, keep);
    ShareIsSome(budget - keep, n - 1);
  }

  /** The loop puts each part, cut to its share, into the dict. */
  lemma {:induction false} SpreadPuts(parts: seq<Part>, budget: nat, out: seq<Part>)
    ensures Spread(parts, budget, out) == PutAll(out, Cut(parts, Fill(Lengths(parts), budget)))
  {
    hide Share, Cut, Put, Fill;
    if parts == [] {
      CutNothing(budget);
    } else {
      var cut := parts[0].body[..Min(|parts[0].body|, Share(budget, |parts|))];
      var p := Part(parts[0].label_, cut);
      CutStep(parts, budget);
      var rest := Cut(parts[1..], Fill(Lengths(parts[1..]), budget - |cut|));
      assert ([p] + rest)[0] == p && ([p] + rest)[1..] == rest;
      SpreadPuts(parts[1..], budget - |cut|, Put(out, p));
    }
  }

  // ---------- two dicts that hold the same ----------

  function Labels(d: seq<Part>): set<string> {
    set p | p in d :: p.label_
  }

  ghost function Held(names: set<string>, d: seq<Part>): nat
    decreases |names|
  {
    if names == {} then 0
    else
      var name :| name in names;
      |Get(d, name)| + Held(names - {name}, d)
  }

  lemma {:induction false} HeldWithout(names: set<string>, d: seq<Part>, name: string)
    requires name in names
    ensures Held(names, d) == |Get(d, name)| + Held(names - {name}, d)
    decreases |names|
  {
    hide Get;
    var other :| other in names && Held(names, d) == |Get(d, other)| + Held(names - {other}, d);
    if other != name {
      HeldWithout(names - {other}, d, name);
      HeldWithout(names - {name}, d, other);
      assert names - {other} - {name} == names - {name} - {other};
    }
  }

  lemma {:induction false} HeldAlike(names: set<string>, a: seq<Part>, b: seq<Part>)
    requires forall name | name in names :: Get(a, name) == Get(b, name)
    ensures Held(names, a) == Held(names, b)
    decreases |names|
  {
    hide Get;
    if names != {} {
      var name :| name in names && Held(names, a) == |Get(a, name)| + Held(names - {name}, a);
      HeldWithout(names, b, name);
      HeldAlike(names - {name}, a, b);
    }
  }

  lemma NothingHeld()
    ensures Sum(Lengths([])) == 0 && Labels([]) == {} && Held({}, []) == 0
  {
    assert Lengths([]) == [];
  }

  lemma GetFirst(d: seq<Part>)
    requires d != []
    ensures Get(d, d[0].label_) == d[0].body
  {
  }

  /** A dict holds what it holds under each of its labels. */
  lemma {:induction false} DictHeld(d: seq<Part>)
    requires DistinctLabels(d)
    ensures Sum(Lengths(d)) == Held(Labels(d), d)
  {
    hide Labels, DistinctLabels, Get, Held;
    if d == [] {
      NothingHeld();
    } else {
      var p, rest := d[0], d[1..];
      assert Get(d, p.label_) == p.body by { GetFirst(d); }
      LabelsCons(d);
      DictHeld(rest);
      HeldWithout(Labels(d), d, p.label_);
      HeldAlike(Labels(rest), d, rest);
      assert Labels(d) - {p.label_} == Labels(rest);
      assert Lengths(d)[1..] == Lengths(rest);
    }
  }

  lemma LabelsCons(d: seq<Part>)
    requires d != []
    ensures Labels(d) == {d[0].label_} + Labels(d[1..])
    ensures DistinctLabels(d) ==> d[0].label_ !in Labels(d[1..]) && DistinctLabels(d[1..])
    ensures DistinctLabels(d) ==> forall name | name in Labels(d[1..]) :: Get(d, name) == Get(d[1..], name)
  {
    assert d == [d[0]] + d[1..];
    forall name | name in {d[0].label_} + Labels(d[1..]) ensures name in Labels(d) {
      if name != d[0].label_ {
        var x :| x in d[1..] && x.label_ == name;
        assert x in d;
      } else {
        assert d[0] in d;
      }
    }
  }

  lemma {:induction false} PutKeepsDict(d: seq<Part>, p: Part)
    requires DistinctLabels(d)
    ensures DistinctLabels(Put(d, p)) && Labels(Put(d, p)) == Labels(d) + {p.label_}
  {
    if d == [] {
      assert Labels([p]) == {p.label_};
    } else {
      LabelsCons(d);
      var put := Put(d, p);
      if d[0].label_ == p.label_ {
        assert put[0] == p && put[1..] == d[1..];
      } else {
        PutKeepsDict(d[1..], p);
        assert put[0] == d[0] && put[1..] == Put(d[1..], p);
      }
      LabelsCons(put);
      DistinctCons(put);
    }
  }

  lemma DistinctCons(d: seq<Part>)
    requires d != [] && DistinctLabels(d[1..]) && d[0].label_ !in Labels(d[1..])
    ensures DistinctLabels(d)
  {
    forall i, j | 0 <= i < j < |d| ensures d[i].label_ != d[j].label_ {
      assert d[j] == d[1..][j - 1] && d[1..][j - 1] in d[1..];
      assert i > 0 ==> d[i] == d[1..][i - 1];
    }
  }

  lemma {:induction false} PutAllDict(d: seq<Part>, parts: seq<Part>)
    requires DistinctLabels(d)
    ensures DistinctLabels(PutAll(d, parts)) && Labels(PutAll(d, parts)) == Labels(d) + Labels(parts)
    decreases parts
  {
    hide Put, DistinctLabels;
    if parts == [] {
      assert Labels(parts) == {};
    } else {
      PutKeepsDict(d, parts[0]);
      PutAllDict(Put(d, parts[0]), parts[1..]);
      LabelsCons(parts);
    }
  }

  /** Putting what a dict holds under some labels into a new dict gives what the old one held under them. */
  lemma {:induction false} PutAllChosen(e: seq<Part>, d: seq<Part>, parts: seq<Part>, name: string)
    requires name in Labels(parts) || Get(e, name) == Get(d, name)
    ensures Get(PutAll(e, Chosen(d, parts)), name) == Get(d, name)
    decreases parts
  {
    hide Get, Put;
    var chosen := Chosen(d, parts);
    if parts != [] {
      LabelsCons(parts);
      PutGet(e, chosen[0], name);
      assert chosen[1..] == Chosen(d, parts[1..]);
      PutAllChosen(Put(e, chosen[0]), d, parts[1..], name);
    }
  }

  lemma ChosenLabels(d: seq<Part>, parts: seq<Part>)
    ensures Labels(Chosen(d, parts)) == Labels(parts)
  {
    hide Get;
    forall name ensures name in Labels(Chosen(d, parts)) <==> name in Labels(parts) {
      if name in Labels(parts) {
        var p :| p in parts && p.label_ == name;
        var i :| 0 <= i < |parts| && parts[i] == p;
        assert Chosen(d, parts)[i] in Chosen(d, parts);
      }
      if name in Labels(Chosen(d, parts)) {
        var p :| p in Chosen(d, parts) && p.label_ == name;
        var i :| 0 <= i < |parts| && Chosen(d, parts)[i] == p;
        assert parts[i] in parts;
      }
    }
  }

  /** The brief shows the characters the loop left in its dict. */
  lemma BriefShowsDict(kept: seq<Part>, cuts: seq<Part>)
    requires Labels(cuts) == Labels(kept)
    ensures var out := PutAll([], cuts); Sum(Lengths(PutAll([], Chosen(out, kept)))) == Sum(Lengths(out))
  {
    hide Get, Put, PutAll, DistinctLabels;
    assert DistinctLabels([]) && Labels([]) == {} by { NoLabels(); }
    var out := PutAll([], cuts);
    var shown := PutAll([], Chosen(out, kept));
    PutAllDict([], cuts);
    PutAllDict([], Chosen(out, kept));
    ChosenLabels(out, kept);
    forall name | name in Labels(kept) ensures Get(shown, name) == Get(out, name) { PutAllChosen([], out, kept, name); }
    DictHeld(out);
    DictHeld(shown);
    HeldAlike(Labels(kept), shown, out);
  }

  lemma NoLabels()
    ensures DistinctLabels([]) && Labels([]) == {}
  {
  }

  // ---------- the theorem ----------

  /** How many of the parts keep something. */
  function Keepers(kept: seq<Part>, limit: nat): nat {
    Min(limit, |kept|)
  }

  /** The parts that keep something: the longest ones. */
  function Last(kept: seq<Part>, limit: nat): seq<Part> {
    var sorted := Sort(kept, Shorter);
    if |sorted| >= Keepers(kept, limit) then sorted[|sorted| - Keepers(kept, limit)..] else []
  }

  lemma {:induction false} CleanedHold(parts: seq<Part>)
    ensures forall p | p in Cleaned(parts) :: p.body != ""
  {
    hide Strip;
    if parts != [] { CleanedHold(parts[1..]); }
  }

  /** A brief uses every character it may exactly when the parts that keep something have different labels. */
  lemma BriefExact(parts: seq<Part>, chars: int, maxChars: nat)
    ensures var kept, brief := Cleaned(parts), BriefOf(parts, chars, maxChars);
      && brief.chars == (if chars <= 0 then 0 else Min(chars, maxChars)) && brief.fullChars == Sum(Lengths(kept))
      && (Sum(Lengths(brief.parts)) == Min(brief.fullChars, brief.chars) <==> DistinctLabels(Last(kept, brief.chars)))
  {
    hide Sort, Spread, Fill, Cut, PutAll, Lost, Get, Put, Shorter, DistinctLabels, Strip, Cleaned;
    var kept, limit := Cleaned(parts), Limit(chars, maxChars);
    CleanedHold(parts);
    var cuts := SortedCuts(kept, limit);
    PutAllSum([], cuts);
    assert Sum(Lengths([])) == 0 by { NoSum(); }
    BriefShowsDict(kept, cuts);
    var z := |kept| - Keepers(kept, limit);
    if DistinctLabels(Last(kept, limit)) { DistinctLoseNothing(cuts, z); }
    if Lost([], cuts) == 0 { LosersShare(cuts, z); }
  }

  lemma NoSum()
    ensures Sum(Lengths([])) == 0
  {
    assert Lengths([]) == [];
  }

  /** What the loop puts into its dict. */
  lemma SortedCuts(kept: seq<Part>, limit: nat) returns (cuts: seq<Part>)
    requires forall p | p in kept :: p.body != ""
    ensures |cuts| == |kept| && Spread(Sort(kept, Shorter), limit, []) == PutAll([], cuts)
    ensures Labels(cuts) == Labels(kept)
    ensures Sum(Lengths(cuts)) == Min(Sum(Lengths(kept)), limit)
    ensures var z := |kept| - Keepers(kept, limit);
      EmptyUpTo(cuts, z) && (DistinctLabels(cuts[z..]) <==> DistinctLabels(Last(kept, limit)))
  {
    hide Sort, Spread, Fill, Cut, PutAll, Sum, Labels, DistinctLabels, EmptyUpTo, Shorter;
    var sorted := Sort(kept, Shorter);
    SortedFacts(kept);
    SpreadPuts(sorted, limit, []);
    CutFacts(sorted, limit);
    cuts := Cut(sorted, Fill(Lengths(sorted), limit));
  }

  lemma SortedFacts(kept: seq<Part>)
    requires forall p | p in kept :: p.body != ""
    ensures var sorted := Sort(kept, Shorter);
      && |sorted| == |kept| && Labels(sorted) == Labels(kept) && Sum(Lengths(sorted)) == Sum(Lengths(kept))
      && Ascending(Lengths(sorted)) && forall p | p in sorted :: p.body != ""
  {
    hide Sort, WeakOrder, Sum, Lengths, Shorter;
    ShorterIsOrder();
    SortSorts(kept, Shorter);
    var sorted := Sort(kept, Shorter);
    AscendingLengths(sorted);
    SumOfSort(kept);
    assert forall p :: p in sorted <==> p in multiset(sorted);
    assert forall p :: p in kept <==> p in multiset(kept);
    assert forall p :: p in sorted <==> p in kept;
    assert Labels(sorted) == Labels(kept);
  }

  lemma CutFacts(sorted: seq<Part>, limit: nat)
    requires Ascending(Lengths(sorted)) && forall p | p in sorted :: p.body != ""
    ensures var cuts, z := Cut(sorted, Fill(Lengths(sorted), limit)), |sorted| - Keepers(sorted, limit);
      && |cuts| == |sorted| && Labels(cuts) == Labels(sorted) && Sum(Lengths(cuts)) == Min(Sum(Lengths(sorted)), limit)
      && EmptyUpTo(cuts, z) && (DistinctLabels(cuts[z..]) <==> DistinctLabels(sorted[z..]))
  {
    hide Fill, Share, Sum, Labels, DistinctLabels, Ascending;
    var lengths := Lengths(sorted);
    var fill := Fill(lengths, limit);
    var cuts := Cut(sorted, fill);
    FillUsesAll(lengths, limit);
    forall i | 0 <= i < |lengths| ensures lengths[i] >= 1 { assert sorted[i] in sorted; }
    FillPositive(lengths, limit);
    assert Lengths(cuts) == fill;
    SameLabels(sorted, cuts);
    SameTails(sorted, cuts, |sorted| - Keepers(sorted, limit));
  }

  lemma SameLabels(a: seq<Part>, b: seq<Part>)
    requires |a| == |b| && forall i | 0 <= i < |a| :: a[i].label_ == b[i].label_
    ensures Labels(a) == Labels(b)
  {
    forall name ensures name in Labels(a) <==> name in Labels(b) {
      if name in Labels(a) {
        var p :| p in a && p.label_ == name;
        var i :| 0 <= i < |a| && a[i] == p;
        assert b[i] in b;
      }
      if name in Labels(b) {
        var p :| p in b && p.label_ == name;
        var i :| 0 <= i < |b| && b[i] == p;
        assert a[i] in a;
      }
    }
  }

  lemma SameTails(a: seq<Part>, b: seq<Part>, z: nat)
    requires |a| == |b| && z <= |a| && forall i | 0 <= i < |a| :: a[i].label_ == b[i].label_
    ensures DistinctLabels(a[z..]) <==> DistinctLabels(b[z..])
  {
    assert forall i | 0 <= i < |a[z..]| :: a[z..][i].label_ == b[z..][i].label_;
  }

  /** And it says rightly whether it is truncated exactly when there was more than it may hold or no label repeats. */
  lemma TruncatedExact(parts: seq<Part>, chars: int, maxChars: nat)
    ensures var kept, brief := Cleaned(parts), BriefOf(parts, chars, maxChars);
      (brief.truncated <==> brief.fullChars > brief.chars) <==> (brief.fullChars > brief.chars || DistinctLabels(kept))
  {
    hide Sort, Spread, Fill, Cut, PutAll, Lost, Get, Put, Shorter, DistinctLabels, Strip, Cleaned;
    var kept, limit := Cleaned(parts), Limit(chars, maxChars);
    CleanedHold(parts);
    var cuts := SortedCuts(kept, limit);
    PutAllSum([], cuts);
    assert Sum(Lengths([])) == 0 by { NoSum(); }
    if Sum(Lengths(kept)) <= limit {
      AtLeastOneEach(kept);
      assert Keepers(kept, limit) == |kept|;
      AllLast(kept, limit);
      if DistinctLabels(kept) { DistinctLoseNothing(cuts, 0); }
      if Lost([], cuts) == 0 { LosersShare(cuts, 0); }
    }
  }

  lemma {:induction false} AtLeastOneEach(kept: seq<Part>)
    requires forall p | p in kept :: p.body != ""
    ensures Sum(Lengths(kept)) >= |kept|
  {
    SumAtLeast(Lengths(kept), 1);
  }

  lemma AllLast(kept: seq<Part>, limit: nat)
    requires Keepers(kept, limit) == |kept|
    ensures DistinctLabels(Last(kept, limit)) <==> DistinctLabels(kept)
  {
    hide Sort, WeakOrder, Shorter;
    ShorterIsOrder();
    SortSorts(kept, Shorter);
    var sorted := Sort(kept, Shorter);
    assert sorted[0..] == sorted;
    if DistinctLabels(kept) { DistinctPermutes(kept, sorted); }
    if DistinctLabels(sorted) { DistinctPermutes(sorted, kept); }
  }

  /** Two parts under one label lose characters although both would have fitted. */
  lemma RepeatedLabelFails()
    ensures var brief := BriefOf([Part("a", "x"), Part("a", "y")], 2, 2);
      brief.fullChars == brief.chars && brief.truncated
  {
    var one, two := Part("a", "x"), Part("a", "y");
    var parts := [one, two];
    assert Strip("x") == "x" && Strip("y") == "y";
    assert parts[1..] == [two] && [two][1..] == [];
    assert Cleaned([two]) == [two];
    assert Cleaned(parts) == [one] + [two] == parts;
    assert Sort([two], Shorter) == [two];
    assert Sort(parts, Shorter) == parts;
    assert Put([], one) == [one] && Put([one], two) == [two] + [one][1..] == [two];
    assert Share(2, 2) == 1 && Share(1, 1) == 1;
    assert "x"[..1] == "x" && "y"[..1] == "y";
    assert Spread([two], 1, [one]) == Spread([two][1..], 0, Put([one], two)) == [two];
    assert Spread(parts, 2, []) == Spread([two], 1, [one]);
    assert Lengths(parts) == [1, 1] && Lengths([two]) == [1];
    assert [1, 1][1..] == [1] && [1][1..] == [] && Sum([1]) == 1 && Sum([1, 1]) == 2;
  }
}
