/** The loops of `window` in shantytown/cost_review.py, which fill sets of attempts and shapes, against the
    window they stand for. */
module CostWindow {
  import opened Basics
  import opened Sorting
  import opened CostReview

  function Stamps(samples: seq<Sample>): seq<int> {
    seq(|samples|, i requires 0 <= i < |samples| => samples[i].at)
  }

  function Shapes(samples: seq<Sample>): seq<(int, int, int)> {
    seq(|samples|, i requires 0 <= i < |samples| => Shape(samples[i]))
  }

  function RowStamps(sources: seq<Source>): seq<int> {
    seq(|sources|, i requires 0 <= i < |sources| => sources[i].sample.at)
  }

  lemma StampsAre(samples: seq<Sample>)
    ensures DistinctAttempts(samples) <==> NoRepeats(Stamps(samples))
    ensures DistinctShapes(samples) <==> NoRepeats(Shapes(samples))
    ensures Attempts(samples) == Elements(Stamps(samples))
  {
    var stamps, shapes := Stamps(samples), Shapes(samples);
    assert forall i | 0 <= i < |samples| :: stamps[i] == samples[i].at;
    assert forall i | 0 <= i < |samples| :: shapes[i] == Shape(samples[i]);
    if DistinctAttempts(samples) { assert NoRepeats(stamps); }
    if NoRepeats(stamps) {
      forall i, j | 0 <= i < j < |samples| ensures samples[i].at != samples[j].at { assert stamps[i] != stamps[j]; }
    }
    if DistinctShapes(samples) { assert NoRepeats(shapes); }
    if NoRepeats(shapes) {
      forall i, j | 0 <= i < j < |samples| ensures Shape(samples[i]) != Shape(samples[j]) {
        assert shapes[i] != shapes[j];
      }
    }
    forall x ensures x in Attempts(samples) <==> x in Elements(Stamps(samples)) {
      if x in Attempts(samples) {
        var i :| 0 <= i < |samples| && samples[i].at == x;
        assert Stamps(samples)[i] == x;
      }
    }
  }

  // ---------- samples ----------

  /** The first loop: None when a sample is refused. */
  method ReadSamples(samples: seq<Sample>) returns (filled: Option<(set<int>, set<(int, int, int)>)>)
    ensures filled.Some? <==> (forall i | 0 <= i < |samples| :: SampleValid(samples[i])) && DistinctAttempts(samples)
    ensures filled.Some? ==> filled.value == (Attempts(samples), Elements(Shapes(samples)))
  {
    var attempts: set<int>, shapes: set<(int, int, int)> := {}, {};
    for i := 0 to |samples|
      invariant forall k | 0 <= k < i :: SampleValid(samples[k])
      invariant NoRepeats(Stamps(samples[..i])) && attempts == Elements(Stamps(samples[..i]))
      invariant shapes == Elements(Shapes(samples[..i]))
    {
      var s := samples[i];
      StampsStep(samples, i);
      if !SampleValid(s) { return None; }
      if s.at in attempts {
        var k :| 0 <= k < i && samples[k].at == s.at;
        return None;
      }
      attempts := attempts + {s.at};
      shapes := shapes + {Shape(s)};
    }
    assert samples[..|samples|] == samples;
    StampsAre(samples);
    return Some((attempts, shapes));
  }

  lemma StampsStep(samples: seq<Sample>, i: nat)
    requires i < |samples|
    ensures Elements(Stamps(samples[..i + 1])) == Elements(Stamps(samples[..i])) + {samples[i].at}
    ensures Elements(Shapes(samples[..i + 1])) == Elements(Shapes(samples[..i])) + {Shape(samples[i])}
    ensures NoRepeats(Stamps(samples[..i])) && samples[i].at !in Elements(Stamps(samples[..i])) ==>
      NoRepeats(Stamps(samples[..i + 1]))
    ensures samples[i].at in Elements(Stamps(samples[..i])) ==> exists k :: 0 <= k < i && samples[k].at == samples[i].at
  {
    assert Stamps(samples[..i + 1]) == Stamps(samples[..i]) + [samples[i].at];
    assert Shapes(samples[..i + 1]) == Shapes(samples[..i]) + [Shape(samples[i])];
    if samples[i].at in Elements(Stamps(samples[..i])) {
      var k :| 0 <= k < i && Stamps(samples[..i])[k] == samples[i].at;
    }
  }

  // ---------- sources ----------

  /** Sorting the filtered rows changes only their order. */
  lemma RelevantPermutes(rows: seq<Source>, attempts: set<int>)
    ensures multiset(Relevant(rows, attempts)) == multiset(Filtered(rows, attempts))
  {
    SortSorts(Filtered(rows, attempts), EarlierAttempt);
  }

  lemma {:induction false} FilteredStamps(rows: seq<Source>, attempts: set<int>)
    ensures Elements(RowStamps(Filtered(rows, attempts))) <= attempts
  {
    forall x | x in Elements(RowStamps(Filtered(rows, attempts))) ensures x in attempts {
      var i :| 0 <= i < |Filtered(rows, attempts)| && RowStamps(Filtered(rows, attempts))[i] == x;
      FilteredAt(rows, attempts, i);
    }
  }

  lemma {:induction false} FilteredAt(rows: seq<Source>, attempts: set<int>, i: nat)
    requires i < |Filtered(rows, attempts)|
    ensures Filtered(rows, attempts)[i].sample.at in attempts
  {
    if i < |Filtered(rows[..|rows| - 1], attempts)| { FilteredAt(rows[..|rows| - 1], attempts, i); }
  }

  lemma SourcedAnyOrder(samples: seq<Sample>, a: seq<Source>, b: seq<Source>)
    requires multiset(a) == multiset(b) && Sourced(samples, a)
    ensures Sourced(samples, b)
  {
    assert |multiset(a)| == |multiset(b)|;
    forall i | 0 <= i < |samples| ensures HasRow(b, samples[i]) {
      assert HasRow(a, samples[i]);
      var j :| 0 <= j < |a| && a[j].sample == samples[i];
      assert a[j] in multiset(b);
      var k :| 0 <= k < |b| && b[k] == a[j];
    }
    forall j | 0 <= j < |b| ensures SourceNamed(b[j]) {
      assert b[j] in multiset(a);
      var k :| 0 <= k < |a| && a[k] == b[j];
    }
  }

  /** The second half: one row a sample, repeating it, its source named. */
  method CheckSources(samples: seq<Sample>, sources: seq<Source>, attempts: set<int>) returns (ok: bool)
    requires DistinctAttempts(samples) && attempts == Attempts(samples) && Elements(RowStamps(sources)) <= attempts
    ensures ok <==> Sourced(samples, sources)
  {
    hide DistinctAttempts, Sourced, NoRepeats, Attempts, RowStamps, SourceNamed, Elements;
    var byStamp := ByStamp(sources);
    var stamps := byStamp.Keys;
    StampsAre(samples);
    SetSize(Stamps(samples));
    SetSize(RowStamps(sources));
    SameCount(samples, sources);
    if |sources| != |samples| { return false; }
    if stamps != attempts {
      MissingRow(samples, sources);
      return false;
    }
    assert NoRepeats(RowStamps(sources));
    for i := 0 to |samples|
      invariant forall k | 0 <= k < i :: RowFor(byStamp, samples[k])
    {
      InAttempts(samples, i);
      var entry := byStamp[samples[i].at];
      OnlyRow(samples, sources, i, entry);
      if entry.sample != samples[i] || !SourceNamed(entry) { return false; }
    }
    AllRows(samples, sources, byStamp);
    return true;
  }

  /** The row found by this sample's stamp repeats it and names its source. */
  predicate RowFor(byStamp: map<int, Source>, sample: Sample) {
    sample.at in byStamp && byStamp[sample.at].sample == sample && SourceNamed(byStamp[sample.at])
  }

  method ByStamp(sources: seq<Source>) returns (byStamp: map<int, Source>)
    ensures byStamp.Keys == Elements(RowStamps(sources))
    ensures forall x | x in byStamp :: byStamp[x] in sources && byStamp[x].sample.at == x
  {
    byStamp := map[];
    for j := 0 to |sources|
      invariant byStamp.Keys == Elements(RowStamps(sources[..j]))
      invariant forall x | x in byStamp :: byStamp[x] in sources && byStamp[x].sample.at == x
    {
      assert RowStamps(sources[..j + 1]) == RowStamps(sources[..j]) + [sources[j].sample.at];
      byStamp := byStamp[sources[j].sample.at := sources[j]];
    }
    assert sources[..|sources|] == sources;
  }

  lemma SameCount(samples: seq<Sample>, sources: seq<Source>)
    ensures Sourced(samples, sources) ==> |sources| == |samples|
    ensures |RowStamps(sources)| == |sources| && |Stamps(samples)| == |samples|
  {
  }

  lemma InAttempts(samples: seq<Sample>, i: nat)
    requires i < |samples|
    ensures samples[i].at in Attempts(samples)
  {
  }

  lemma MissingRow(samples: seq<Sample>, sources: seq<Source>)
    requires Elements(RowStamps(sources)) <= Attempts(samples) && Elements(RowStamps(sources)) != Attempts(samples)
    ensures !Sourced(samples, sources)
  {
    var x :| x in Attempts(samples) && x !in Elements(RowStamps(sources));
    var i :| 0 <= i < |samples| && samples[i].at == x;
    forall j | 0 <= j < |sources| ensures sources[j].sample != samples[i] {
      assert RowStamps(sources)[j] in Elements(RowStamps(sources));
    }
  }

  /** With one row a stamp, the row found for a sample is the only one there could be. */
  lemma OnlyRow(samples: seq<Sample>, sources: seq<Source>, i: nat, entry: Source)
    requires i < |samples| && entry in sources && entry.sample.at == samples[i].at && NoRepeats(RowStamps(sources))
    ensures Sourced(samples, sources) ==> entry.sample == samples[i] && SourceNamed(entry)
  {
    var k :| 0 <= k < |sources| && sources[k] == entry;
    if Sourced(samples, sources) {
      assert HasRow(sources, samples[i]);
      var j :| 0 <= j < |sources| && sources[j].sample == samples[i];
      assert RowStamps(sources)[j] == RowStamps(sources)[k];
      assert j == k;
    }
  }

  lemma AllRows(samples: seq<Sample>, sources: seq<Source>, byStamp: map<int, Source>)
    requires |sources| == |samples| && NoRepeats(RowStamps(sources))
    requires byStamp.Keys == Attempts(samples) == Elements(RowStamps(sources))
    requires forall x | x in byStamp :: byStamp[x] in sources && byStamp[x].sample.at == x
    requires forall k | 0 <= k < |samples| :: RowFor(byStamp, samples[k])
    ensures Sourced(samples, sources)
  {
    forall i | 0 <= i < |samples| ensures HasRow(sources, samples[i]) {
      assert RowFor(byStamp, samples[i]);
      var entry := byStamp[samples[i].at];
      var j :| 0 <= j < |sources| && sources[j] == entry;
      assert sources[j].sample == samples[i];
    }
    forall j | 0 <= j < |sources| ensures SourceNamed(sources[j]) {
      var x := RowStamps(sources)[j];
      assert x in Attempts(samples);
      var i :| 0 <= i < |samples| && samples[i].at == x;
      var k :| 0 <= k < |sources| && sources[k] == byStamp[x];
      assert RowStamps(sources)[k] == RowStamps(sources)[j];
      assert k == j;
    }
  }

  // ---------- the window ----------

  /** `window`. */
  method ReadWindow(d: Disk, size: Sizes) returns (identity: Option<Identity>)
    ensures identity == Window(d, size)
  {
    hide StatePath, Sourced, Relevant, Filtered, DistinctAttempts, DistinctShapes, SampleValid;
    var state := StatePath(d, size);
    if state.None? { return None; }
    var budget := ReadFile(d, size, StateFile(state.value, BudgetPart));
    var rotation := ReadFile(d, size, RotationFile);
    var receipt := ReadFile(d, size, StateFile(state.value, ReceiptPart));
    var snapshot := ReadFile(d, size, StateFile(state.value, Snapshot));
    if !budget.Bytes? || !budget.c.Budget? { return None; }
    var h := budget.c.history;
    if |h.distinct| != TARGET || !h.due { return None; }
    var filled := ReadSamples(h.distinct);
    if filled.None? { return None; }
    var (attempts, shapes) := filled.value;
    StampsAre(h.distinct);
    SetSize(Shapes(h.distinct));
    if |shapes| != TARGET { return None; }
    var covered := RunsCovered(h);
    if !covered { return None; }
    if !rotation.Bytes? || !rotation.c.Rotation? { return None; }
    var sources := Filtered(rotation.c.samples, attempts);
    FilteredStamps(rotation.c.samples, attempts);
    RelevantPermutes(rotation.c.samples, attempts);
    var sourced := CheckSources(h.distinct, sources, attempts);
    AnyOrder(h.distinct, sources, Relevant(rotation.c.samples, attempts));
    if !sourced { return None; }
    if !receipt.Bytes? || !receipt.c.Receipt? { return None; }
    if receipt.c.cooldown.Some? && receipt.c.cooldown.value < 0 { return None; }
    if snapshot.Refused? || snapshot == Bytes(Torn) { return None; }
    return Some(Identity(state.value, LIMITS, h, Relevant(rotation.c.samples, attempts),
                         if snapshot.Bytes? then Some(OfContent(snapshot.c)) else None, receipt.c.cooldown));
  }

  lemma AnyOrder(samples: seq<Sample>, a: seq<Source>, b: seq<Source>)
    requires multiset(a) == multiset(b)
    ensures Sourced(samples, a) <==> Sourced(samples, b)
  {
    if Sourced(samples, a) { SourcedAnyOrder(samples, a, b); }
    if Sourced(samples, b) { SourcedAnyOrder(samples, b, a); }
  }

  /** No sample ran later than the count of runs. */
  method RunsCovered(h: History) returns (ok: bool)
    ensures ok <==> forall i | 0 <= i < |h.distinct| :: h.distinct[i].run <= h.runs
  {
    for i := 0 to |h.distinct|
      invariant forall k | 0 <= k < i :: h.distinct[k].run <= h.runs
    {
      if h.distinct[i].run > h.runs { return false; }
    }
    return true;
  }
}
