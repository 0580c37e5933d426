/** The rotation of shantytown/cost_sampling.py: which source is sampled next, however sources come and go. */
module CostSampling {
  import TextOrder

  datatype Source = Source(agent: string, session: string)

  /** Python's order on the lists `[agent, session]`. */
  predicate Before(a: Source, b: Source) {
    TextOrder.Less(a.agent, b.agent) || (a.agent == b.agent && TextOrder.Less(a.session, b.session))
  }

  lemma BeforeIsTotal(a: Source, b: Source)
    ensures Before(a, b) || Before(b, a) || a == b
    ensures !(Before(a, b) && Before(b, a)) && !Before(a, a)
  {
    TextOrder.LessIsTotal(a.agent, b.agent);
    TextOrder.LessIsTotal(a.session, b.session);
  }

  lemma BeforeChains(a: Source, b: Source, c: Source)
    ensures Before(a, b) && Before(b, c) ==> Before(a, c)
  {
    hide TextOrder.Less;
    if TextOrder.Less(a.agent, b.agent) && TextOrder.Less(b.agent, c.agent) {
      TextOrder.LessChains(a.agent, b.agent, c.agent);
    }
    if TextOrder.Less(a.session, b.session) && TextOrder.Less(b.session, c.session) {
      TextOrder.LessChains(a.session, b.session, c.session);
    }
  }

  /** What `active_sources` returns: sorted, each source once. */
  predicate Listed(sources: seq<Source>) {
    sources != [] && forall i, j | 0 <= i < j < |sources| :: Before(sources[i], sources[j])
  }

  // ---------- one selection ----------

  /** The first source after the last one sampled, and the very first when there is none. */
  predicate Selects(sources: seq<Source>, prior: Source, chosen: Source) {
    && chosen in sources
    && if exists s :: s in sources && Before(prior, s)
       then Before(prior, chosen) && forall s | s in sources && Before(prior, s) :: s == chosen || Before(chosen, s)
       else chosen == sources[0]
  }

  /** A later agent, or a later session of the same agent. */
  predicate Comes(after: Source, s: Source) {
    TextOrder.Less(after.agent, s.agent) || (after.agent == s.agent && TextOrder.Less(after.session, s.session))
  }

  /** The next to come after the last one sampled; when there is none, the one that all others come after. */
  ghost predicate NextToCome(sources: seq<Source>, prior: Source, chosen: Source) {
    && chosen in sources
    && if exists s :: s in sources && Comes(prior, s)
       then Comes(prior, chosen) && forall s | s in sources && Comes(prior, s) && s != chosen :: Comes(chosen, s)
       else forall s | s in sources && s != chosen :: Comes(chosen, s)
  }

  lemma SelectsNextToCome(sources: seq<Source>, prior: Source, chosen: Source)
    requires Listed(sources) && Selects(sources, prior, chosen)
    ensures NextToCome(sources, prior, chosen)
  {
    forall a, b ensures Comes(a, b) <==> Before(a, b) { }
    hide Before, Comes;
    forall s | s in sources && s != sources[0] ensures Comes(sources[0], s) {
      var k :| 0 <= k < |sources| && sources[k] == s;
    }
  }

  /** `select`. */
  method Select(sources: seq<Source>, prior: Source) returns (chosen: Source)
    requires Listed(sources)
    ensures Selects(sources, prior, chosen) && NextToCome(sources, prior, chosen)
  {
    hide Before, NextToCome;
    for i := 0 to |sources|
      invariant forall k | 0 <= k < i :: !Before(prior, sources[k])
    {
      if Before(prior, sources[i]) {
        chosen := sources[i];
        forall s | s in sources && Before(prior, s) ensures s == chosen || Before(chosen, s) {
          var k :| 0 <= k < |sources| && sources[k] == s;
        }
        SelectsNextToCome(sources, prior, chosen);
        return;
      }
    }
    chosen := sources[0];
    SelectsNextToCome(sources, prior, chosen);
  }

  // ---------- runs ----------

  datatype Attempt = Attempt(sources: seq<Source>, chosen: Source)

  /** Attempts in turn: each selects after the one before, and moves on whatever became of it. */
  ghost predicate Rotation(run: seq<Attempt>, prior: Source) {
    forall t | 0 <= t < |run| :: Turn(run, prior, t)
  }

  predicate Turn(run: seq<Attempt>, prior: Source, t: nat)
    requires t < |run|
  {
    Listed(run[t].sources) && Selects(run[t].sources, if t == 0 then prior else run[t - 1].chosen, run[t].chosen)
  }

  /** Waiting ahead of the cursor, a source is passed by nobody. */
  lemma {:induction false} Rise(run: seq<Attempt>, prior: Source, a: nat, b: nat, y: Source)
    requires Rotation(run, prior) && a <= b < |run| && Before(run[a].chosen, y)
    requires forall t | a < t <= b :: y in run[t].sources && run[t].chosen != y
    ensures Before(run[b].chosen, y) && (a < b ==> Before(run[a].chosen, run[b].chosen))
    decreases b - a
  {
    hide Before;
    if a < b {
      Rise(run, prior, a, b - 1, y);
      assert Turn(run, prior, b);
      assert y in run[b].sources && Before(run[b - 1].chosen, y);
      BeforeIsTotal(run[b].chosen, y);
      BeforeChains(run[a].chosen, run[b - 1].chosen, run[b].chosen);
    }
  }

  /** Going on, the cursor climbs until it wraps. */
  lemma {:induction false} ClimbOrWrap(run: seq<Attempt>, prior: Source, a: nat, b: nat) returns (wrap: nat)
    requires Rotation(run, prior) && a < b < |run|
    ensures a < wrap <= b
    ensures Before(run[a].chosen, run[b].chosen)
      || (run[wrap].sources != [] && run[wrap].chosen == run[wrap].sources[0])
    decreases b - a
  {
    hide Before;
    wrap := b;
    assert Turn(run, prior, b);
    if a < b - 1 && Before(run[b - 1].chosen, run[b].chosen) {
      var earlier := ClimbOrWrap(run, prior, a, b - 1);
      BeforeChains(run[a].chosen, run[b - 1].chosen, run[b].chosen);
      if !Before(run[a].chosen, run[b].chosen) { wrap := earlier; }
    }
  }

  lemma FirstIsLeast(sources: seq<Source>, y: Source)
    requires Listed(sources) && y in sources
    ensures y == sources[0] || Before(sources[0], y)
  {
    var i :| 0 <= i < |sources| && sources[i] == y;
  }

  /** Nobody is sampled twice before everybody who was there all the while has been sampled in between. */
  lemma NobodyTwice(run: seq<Attempt>, prior: Source, first: nat, second: nat, y: Source)
    requires Rotation(run, prior) && first < second < |run| && run[first].chosen == run[second].chosen
    requires y != run[first].chosen && forall t | first < t <= second :: y in run[t].sources
    ensures exists t :: first < t < second && run[t].chosen == y
  {
    hide Before, Rotation, Selects;
    var x := run[first].chosen;
    if !exists t :: first < t < second && run[t].chosen == y {
      BeforeIsTotal(x, y);
      BeforeIsTotal(x, x);
      if Before(x, y) {
        Rise(run, prior, first, second, y);
      } else {
        var wrap := ClimbOrWrap(run, prior, first, second);
        ListedAt(run, prior, wrap);
        FirstIsLeast(run[wrap].sources, y);
        BeforeIsTotal(y, x);
        Rise(run, prior, wrap, second, y);
      }
    }
  }

  lemma ListedAt(run: seq<Attempt>, prior: Source, t: nat)
    requires Rotation(run, prior) && t < |run|
    ensures Listed(run[t].sources) && run[t].chosen in run[t].sources
  {
    hide Before;
    assert Turn(run, prior, t);
  }

  // ---------- a fixed set ----------

  /** `steps` places on from `start`, round a circle of `n`. */
  function Place(start: nat, steps: nat, n: nat): (place: nat)
    requires start < n && steps < n
    ensures place < n
  {
    if start + steps < n then start + steps else start + steps - n
  }

  lemma SelectsNext(sources: seq<Source>, prior: Source, chosen: Source, i: nat)
    requires Listed(sources) && i < |sources| && prior == sources[i] && Selects(sources, prior, chosen)
    ensures chosen == if i + 1 < |sources| then sources[i + 1] else sources[0]
  {
    hide Before;
    var k :| 0 <= k < |sources| && sources[k] == chosen;
    forall j | 0 <= j < |sources| ensures Before(prior, sources[j]) <==> i < j {
      BeforeIsTotal(sources[i], sources[j]);
    }
    if i + 1 < |sources| {
      assert sources[i + 1] in sources;
      BeforeIsTotal(sources[i + 1], chosen);
    }
  }

  /** While the set stays the same, the rotation goes round it. */
  lemma {:induction false} GoesRound(run: seq<Attempt>, prior: Source, sources: seq<Source>, start: nat, k: nat)
    requires Rotation(run, prior) && k < |run| <= |sources| && Listed(sources) && start < |sources|
    requires forall t | 0 <= t < |run| :: run[t].sources == sources
    requires run[0].chosen == sources[start]
    ensures run[k].chosen == sources[Place(start, k, |sources|)]
  {
    hide Before, Selects, Listed;
    if k > 0 {
      GoesRound(run, prior, sources, start, k - 1);
      assert Turn(run, prior, k);
      SelectsNext(sources, run[k - 1].chosen, run[k].chosen, Place(start, k - 1, |sources|));
    }
  }

  /** Every source of a fixed set is sampled exactly once in as many attempts as there are sources. */
  lemma OnceEach(run: seq<Attempt>, prior: Source, sources: seq<Source>)
    requires Rotation(run, prior) && Listed(sources) && |run| == |sources|
    requires forall t | 0 <= t < |run| :: run[t].sources == sources
    ensures forall i | 0 <= i < |sources| :: exists t :: 0 <= t < |run| && run[t].chosen == sources[i]
    ensures forall t, u | 0 <= t < u < |run| :: run[t].chosen != run[u].chosen
  {
    hide Before, Selects, Rotation;
    var n := |sources|;
    var start := FirstPlace(run, prior);
    forall i | 0 <= i < n ensures exists t :: 0 <= t < |run| && run[t].chosen == sources[i] {
      var t := if i >= start then i - start else i - start + n;
      GoesRound(run, prior, sources, start, t);
      assert run[t].chosen == sources[i];
    }
    forall t, u | 0 <= t < u < |run| ensures run[t].chosen != run[u].chosen {
      GoesRound(run, prior, sources, start, t);
      GoesRound(run, prior, sources, start, u);
      var i, j := Place(start, t, n), Place(start, u, n);
      assert i != j;
      DifferentPlaces(sources, i, j);
    }
  }

  lemma DifferentPlaces(sources: seq<Source>, i: nat, j: nat)
    requires Listed(sources) && i < |sources| && j < |sources| && i != j
    ensures sources[i] != sources[j]
  {
    BeforeIsTotal(sources[i], sources[j]);
  }

  lemma FirstPlace(run: seq<Attempt>, prior: Source) returns (start: nat)
    requires Rotation(run, prior) && run != []
    ensures start < |run[0].sources| && run[0].sources[start] == run[0].chosen
  {
    ListedAt(run, prior, 0);
    var first := run[0];
    assert first.chosen in first.sources;
    start :| 0 <= start < |run[0].sources| && run[0].sources[start] == run[0].chosen;
  }

  // ---------- the rotation file ----------

  datatype Sample = Sample(attemptedAt: int, shape: int)

  datatype Evidence = Evidence(sample: Sample, source: Source)

  datatype Receipt = Receipt(samples: seq<Sample>, attemptedAt: int)

  predicate Stamped(evidence: seq<Evidence>, stamp: int) {
    exists i | 0 <= i < |evidence| :: evidence[i].sample.attemptedAt == stamp
  }

  predicate InWindow(receipt: Receipt, stamp: int) {
    exists i | 0 <= i < |receipt.samples| :: receipt.samples[i].attemptedAt == stamp
  }

  /** The part of the evidence that the current window still holds. */
  function Current(evidence: seq<Evidence>, receipt: Receipt): seq<Evidence> {
    if evidence == [] then []
    else
      var e := evidence[|evidence| - 1];
      Current(evidence[..|evidence| - 1], receipt) + (if InWindow(receipt, e.sample.attemptedAt) then [e] else [])
  }

  lemma {:induction false} CurrentMembers(evidence: seq<Evidence>, receipt: Receipt)
    ensures forall e :: e in Current(evidence, receipt) <==> e in evidence && InWindow(receipt, e.sample.attemptedAt)
  {
    hide InWindow;
    if evidence != [] {
      var before := evidence[..|evidence| - 1];
      CurrentMembers(before, receipt);
      assert forall e :: e in evidence <==> e in before || e == evidence[|evidence| - 1];
    }
  }

  lemma StampedMore(evidence: seq<Evidence>, e: Evidence)
    ensures Stamped(evidence + [e], e.sample.attemptedAt)
    ensures forall s :: Stamped(evidence, s) ==> Stamped(evidence + [e], s)
  {
    assert (evidence + [e])[|evidence|] == e;
    forall s ensures Stamped(evidence, s) ==> Stamped(evidence + [e], s) { StampedStill(evidence, evidence + [e], s); }
  }

  lemma StampedStill(some: seq<Evidence>, more: seq<Evidence>, s: int)
    requires some <= more
    ensures Stamped(some, s) ==> Stamped(more, s)
  {
    if Stamped(some, s) {
      var k :| 0 <= k < |some| && some[k].sample.attemptedAt == s;
      assert more[k] == some[k];
    }
  }

  predicate OfThisAttempt(e: Evidence, source: Source, since: int, receipt: Receipt) {
    e.source == source && e.sample.attemptedAt == receipt.attemptedAt && receipt.attemptedAt >= since
  }

  /** Seen in this attempt, at this source. */
  predicate Observed(e: Evidence, source: Source, since: int, receipt: Receipt) {
    e.source == source && e.sample in receipt.samples && e.sample.attemptedAt == receipt.attemptedAt >= since
  }

  lemma KeptMeans(before: seq<Evidence>, receipt: Receipt)
    ensures forall e :: e in Current(before, receipt) <==>
      e in before && exists x :: x in receipt.samples && x.attemptedAt == e.sample.attemptedAt
  {
    CurrentMembers(before, receipt);
    forall e: Evidence ensures InWindow(receipt, e.sample.attemptedAt) <==>
      exists x :: x in receipt.samples && x.attemptedAt == e.sample.attemptedAt {
      if x :| x in receipt.samples && x.attemptedAt == e.sample.attemptedAt {
        var i :| 0 <= i < |receipt.samples| && receipt.samples[i] == x;
      }
      if InWindow(receipt, e.sample.attemptedAt) {
        var i :| 0 <= i < |receipt.samples| && receipt.samples[i].attemptedAt == e.sample.attemptedAt;
        assert receipt.samples[i] in receipt.samples;
      }
    }
  }

  class RotationFile {
    var last: Source
    var samples: seq<Evidence>

    constructor ()
      ensures last == Source("", "") && samples == []
    {
      last, samples := Source("", ""), [];
    }

    /** `attempted`: the cursor moves whatever happened; the evidence keeps what the window still holds,
        as it was, and gains only samples of this very attempt, under the source that was tried. */
    method Attempted(source: Source, since: int, receipt: Receipt)
      modifies this
      ensures last == source
      ensures forall e | e in samples :: InWindow(receipt, e.sample.attemptedAt)
      ensures Current(old(samples), receipt) <= samples
      ensures forall k | |Current(old(samples), receipt)| <= k < |samples| ::
        OfThisAttempt(samples[k], source, since, receipt)
      ensures forall k | |Current(old(samples), receipt)| <= k < |samples| ::
        !Stamped(Current(old(samples), receipt), samples[k].sample.attemptedAt)
      // evidence of an attempt the receipt still lists stays; what is new was seen in this attempt, at this source
      ensures forall e, x | e in old(samples) && x in receipt.samples && x.attemptedAt == e.sample.attemptedAt ::
        e in samples
      ensures forall e | e in samples ::
        (e in old(samples) && exists x :: x in receipt.samples && x.attemptedAt == e.sample.attemptedAt)
        || Observed(e, source, since, receipt)
      ensures receipt.attemptedAt >= since && InWindow(receipt, receipt.attemptedAt) ==>
        Stamped(samples, receipt.attemptedAt)
    {
      last := source;
      var kept := Current(samples, receipt);
      CurrentMembers(samples, receipt);
      KeptMeans(samples, receipt);
      var evidence := kept;
      for i := 0 to |receipt.samples|
        invariant last == source && kept <= evidence
        invariant forall e | e in evidence :: InWindow(receipt, e.sample.attemptedAt)
        invariant forall k | |kept| <= k < |evidence| ::
          OfThisAttempt(evidence[k], source, since, receipt)
        invariant forall k | |kept| <= k < |evidence| :: !Stamped(kept, evidence[k].sample.attemptedAt)
        invariant forall e | e in evidence :: e in kept || Observed(e, source, since, receipt)
        invariant receipt.attemptedAt >= since ==> forall j | 0 <= j < i ::
          receipt.samples[j].attemptedAt == receipt.attemptedAt ==> Stamped(evidence, receipt.attemptedAt)
      {
        var sample := receipt.samples[i];
        var stamp := sample.attemptedAt;
        if stamp >= since && stamp == receipt.attemptedAt && !Stamped(kept, stamp) {
          var e := Evidence(sample, source);
          StampedMore(evidence, e);
          evidence := evidence + [e];
        }
        StampedStill(kept, evidence, stamp);
      }
      samples := evidence;
    }
  }
}
