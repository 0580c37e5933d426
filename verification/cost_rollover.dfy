/** Rolling a continuous review over, and what a chain of generations carries along. */
module CostRollover {
  import opened Basics
  import opened TextStrip
  import opened CostReview
  import opened CostAdvance
  import opened CostWindow

  datatype Policy = Policy(mode: Mode, reviewer: string, evidence: string)

  function PolicyOfDecision(x: Decision): Policy {
    Policy(x.mode, x.reviewer, x.evidence)
  }

  /** The ruling in the manifest of the generation in force. */
  function PolicyOf(d: Disk): Option<Policy> {
    if PointerFile in d.files && d.files[PointerFile].Pointer?
       && ReviewFile(d.files[PointerFile].generation) in d.files
       && d.files[ReviewFile(d.files[PointerFile].generation)].Manifest?
    then Some(PolicyOfDecision(d.files[ReviewFile(d.files[PointerFile].generation)].decision))
    else None
  }

  /** What a commit puts in force and what it keeps: the decision's policy, the lifetime
      accounting and the request cooldown; the old window's evidence is in the manifest. */
  lemma CommitKeeps(d0: Disk, size: Sizes, g: Hash, decision: Decision, d: Disk)
    requires Window(d0, size).Some? && Committed(d0, size, g, Window(d0, size).value, decision, d)
    ensures PolicyOf(d) == Some(PolicyOfDecision(decision))
    ensures var before, after :=
      StateFile(Window(d0, size).value.state, BudgetPart), StateFile(Generation(g), BudgetPart);
      && before in d0.files && d0.files[before].Budget? && after in d.files && d.files[after].Budget?
      && var h, h' := d0.files[before].history, d.files[after].history;
      && h'.runs == h.runs && h'.lifetime == h.lifetime && h'.distinct == [] && !h'.due && h'.accepted == Some(decision)
      && ReviewFile(g) in d.files && d.files[ReviewFile(g)].Manifest? && d.files[ReviewFile(g)].identity.history == h
    ensures var before, after :=
      StateFile(Window(d0, size).value.state, ReceiptPart), StateFile(Generation(g), ReceiptPart);
      && before in d0.files && d0.files[before].Receipt? && after in d.files && d.files[after].Receipt?
      && d.files[after].cooldown == d0.files[before].cooldown
  {
    hide Window, ArchiveIntact, Preparing;
    WindowFacts(d0, size);
    var identity := Window(d0, size).value;
    var d1, manifest :| Prepared(d0, d1, size, g, identity, decision, manifest) && d == Commit(d1, g, manifest);
  }

  predicate WithinLimits(samples: seq<Sample>) {
    forall i | 0 <= i < |samples| ::
      samples[i].items <= LIMITS.items && samples[i].records <= LIMITS.records && samples[i].bytes <= LIMITS.bytes
  }

  lemma LimitsAre(samples: seq<Sample>)
    ensures WithinLimits(samples) <==>
      forall s | s in samples :: s.items <= 8 && s.records <= 1000 && s.bytes <= 4194304
  {
    if WithinLimits(samples) {
      forall s | s in samples ensures s.items <= 8 && s.records <= 1000 && s.bytes <= 4194304 {
        var i :| 0 <= i < |samples| && samples[i] == s;
      }
    }
  }

  lemma WindowIsWhole(d: Disk, size: Sizes)
    ensures Window(d, size).Some? ==> |Window(d, size).value.history.distinct| == 20
  {
    hide StatePath, Relevant;
  }

  datatype RollOutcome = NotRolled | RollError | RollStopped(how: Outcome) | Rolled

  /** `rollover`: only a ruling read through the pointer's hash may roll. */
  method Rollover(fs: Files, size: Sizes, pending: bool) returns (outcome: RollOutcome)
    requires fs.Valid()
    modifies fs
    ensures fs.Valid() && old(fs.past) <= fs.past
    ensures outcome.NotRolled? || outcome.RollError? ==> fs.d == old(fs.d) && fs.past == old(fs.past)
    ensures outcome.Rolled? ==>
      PolicyOf(old(fs.d)).Some? && PolicyOf(old(fs.d)).value.mode == BoundedContinuous
      && PolicyOf(fs.d) == PolicyOf(old(fs.d))
      && Window(old(fs.d), size).Some?
      && |Window(old(fs.d), size).value.history.distinct| == 20
      && (forall s | s in Window(old(fs.d), size).value.history.distinct ::
            s.items <= 8 && s.records <= 1000 && s.bytes <= 4194304)
      && StatePath(fs.d, size) == Some(Generation(OfIdentity(Window(old(fs.d), size).value)))
    ensures outcome.NotRolled? ==>
      || StatePath(old(fs.d), size) == Some(Legacy)
      || (PolicyOf(old(fs.d)).Some? && PolicyOf(old(fs.d)).value.mode != BoundedContinuous)
      || (Window(old(fs.d), size).Some? && exists s | s in Window(old(fs.d), size).value.history.distinct ::
            s.items > 8 || s.records > 1000 || s.bytes > 4194304)
    ensures outcome.RollStopped? ==>
      Window(old(fs.d), size).Some? && PolicyOf(old(fs.d)).Some?
      && (var identity := Window(old(fs.d), size).value;
          forall i | |old(fs.past)| <= i < |fs.past| ::
            exists decision: Decision :: PolicyOf(old(fs.d)) == Some(PolicyOfDecision(decision))
              && Reached(old(fs.d), size, OfIdentity(identity), identity, decision, fs.past[i]))
  {
    hide Window, Reached, Committed, Allowed, ArchiveIntact, WithinLimits;
    var state := StatePath(fs.d, size);
    if state.None? { return RollError; }
    if state == Some(Legacy) { return NotRolled; }
    var review := ReadFile(fs.d, size, ReviewFile(state.value.g));
    if !review.Bytes? || !review.c.Manifest? { return RollError; }
    var policy := review.c.decision;
    if policy.mode != BoundedContinuous { return NotRolled; }
    if review.c.identity.limits != LIMITS || !policy.accept || Strip(policy.reviewer) == ""
       || Strip(policy.evidence) == "" {
      return RollError;
    }
    var current := ReadWindow(fs.d, size);
    if current.None? { return RollError; }
    WindowIsWhole(fs.d, size);
    LimitsAre(current.value.history.distinct);
    if !WithinLimits(current.value.history.distinct) { return NotRolled; }
    ghost var d0 := fs.d;
    assert PolicyOf(d0) == Some(PolicyOfDecision(policy));
    var expected := OfIdentity(current.value);
    var inherited := policy.(window := expected);
    assert PolicyOfDecision(inherited) == PolicyOfDecision(policy);
    var how := Advance(fs, size, expected, inherited, pending, true);
    if how.ValueError? { return RollError; }
    if !how.Advanced? { return RollStopped(how); }
    CommitKeeps(d0, size, expected, inherited, fs.d);
    return Rolled;
  }

  // ---------- chains ----------

  /** Between commits, sampling rewrites state files, the rotation and the report, never the review. */
  ghost predicate Sampling(d: Disk, d': Disk) {
    forall p | p == PointerFile || p.ReviewFile? || p.ArchiveFile? ::
      (p in d'.files <==> p in d.files) && (p in d.files ==> d'.files[p] == d.files[p])
  }

  /** An advance stopped before its swap is a link too: a folder was prepared, for a window of this disk. */
  datatype Link = Sampled | Stopped(g: Hash) | Explicit(decision: Decision) | Inherited(decision: Decision)

  ghost predicate LinkHolds(size: Sizes, link: Link, d: Disk, d': Disk) {
    match link
    case Sampled => Sampling(d, d')
    case Stopped(g) => Window(d, size).Some? && g !in d.folders && Preparing(d, d', g)
    case Explicit(decision) =>
      Window(d, size).Some?
      && Committed(d, size, OfIdentity(Window(d, size).value), Window(d, size).value, decision, d')
    case Inherited(decision) =>
      && Window(d, size).Some?
      && Committed(d, size, OfIdentity(Window(d, size).value), Window(d, size).value, decision, d')
      && PolicyOf(d) == Some(PolicyOfDecision(decision))
  }

  ghost predicate IsChain(size: Sizes, links: seq<Link>, disks: seq<Disk>) {
    |disks| == |links| + 1 && forall i | 0 <= i < |links| :: LinkHolds(size, links[i], disks[i], disks[i + 1])
  }

  /** Every disk that a stop of an advance can leave is one link on. */
  lemma AnyStopIsALink(d: Disk, size: Sizes, decision: Decision, pending: bool, d': Disk)
    requires Window(d, size).Some?
    requires var expected := OfIdentity(Window(d, size).value);
      && Allowed(d, size, expected, decision, pending)
      && Reached(d, size, expected, Window(d, size).value, decision, d')
    ensures LinkHolds(size, Sampled, d, d') || LinkHolds(size, Explicit(decision), d, d')
         || LinkHolds(size, Stopped(OfIdentity(Window(d, size).value)), d, d')
  {
    hide Window, Preparing, Committed;
  }

  lemma SampledKeeps(d: Disk, d': Disk)
    requires Sampling(d, d')
    ensures PolicyOf(d') == PolicyOf(d)
  {
  }

  /** A folder being prepared leaves the ruling in force. */
  lemma StoppedKeeps(d: Disk, size: Sizes, g: Hash, d': Disk)
    requires Window(d, size).Some? && g !in d.folders && Preparing(d, d', g)
    ensures PolicyOf(d') == PolicyOf(d)
  {
    hide CompleteWindow, Relevant, ArchiveIntact;
    WindowHasState(d, size);
    assert Folder(PointerFile) != Some(g);
    if PointerFile in d.files && d.files[PointerFile].Pointer? {
      var h := d.files[PointerFile].generation;
      assert h in d.folders;
      assert Folder(ReviewFile(h)) != Some(g);
    }
  }

  /** The policy in force is the last one a person ruled, however often it has rolled since, and wherever advances
      have stopped. */
  lemma {:induction false} LastRulingInForce(size: Sizes, links: seq<Link>, disks: seq<Disk>, i: nat, j: nat)
    requires IsChain(size, links, disks) && i < |links| && links[i].Explicit? && i < j < |disks|
    requires forall k | i < k < j :: !links[k].Explicit?
    ensures PolicyOf(disks[j]) == Some(PolicyOfDecision(links[i].decision))
    decreases j
  {
    hide Window, Committed, Preparing, PolicyOf;
    assert LinkHolds(size, links[j - 1], disks[j - 1], disks[j]);
    if j - 1 > i {
      LastRulingInForce(size, links, disks, i, j - 1);
    }
    if links[j - 1].Sampled? {
      SampledKeeps(disks[j - 1], disks[j]);
    } else if links[j - 1].Stopped? {
      StoppedKeeps(disks[j - 1], size, links[j - 1].g, disks[j]);
    } else {
      CommitKeeps(disks[j - 1], size, OfIdentity(Window(disks[j - 1], size).value), links[j - 1].decision, disks[j]);
    }
  }
}
