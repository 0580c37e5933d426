/** An advance that ends with no state: the bound that shantytown/cost_review.py reads by but does not write by. */
module CostOversize {
  import opened Basics
  import opened Sorting
  import opened CostReview
  import opened CostAdvance

  /** The shortest a decision file can be: its two free texts. */
  function DecisionSize(decision: Decision): nat {
    |decision.evidence| + |decision.reviewer|
  }

  /** A manifest holds its decision and more; here every other file is one byte long. */
  function FileSize(c: Content): nat {
    if c.Manifest? then DecisionSize(c.decision) + 1 else 1
  }

  function Samples(): seq<Sample> {
    seq(TARGET, i => Sample(i, i, i, i, i + 1))
  }

  function Rows(samples: seq<Sample>): seq<Source> {
    seq(|samples|, i requires 0 <= i < |samples| => Source(samples[i], "agent", "harness", "session", "path"))
  }

  /** A first state, its window due and complete. */
  function DueHistory(): History {
    History(TARGET, Samples(), true, None, "")
  }

  function OldReceipt(): Content {
    Receipt("KNOWN", 1, None)
  }

  function DueDisk(): Disk {
    DiskOf(Budget(DueHistory()), OldReceipt(), Rotation(Rows(Samples())))
  }

  function DiskOf(budget: Content, receipt: Content, rotation: Content): Disk {
    Disk(map[StateFile(Legacy, BudgetPart) := budget, StateFile(Legacy, ReceiptPart) := receipt,
             RotationFile := rotation], {})
  }

  function DueIdentity(): Identity {
    Identity(Legacy, LIMITS, DueHistory(), Rows(Samples()), None, None)
  }

  /** A decision whose file is exactly as long as the bound allows. */
  function LongDecision(g: Hash): Decision {
    Decision(g, true, BoundedPilot, "reviewer", seq(MAX_BYTES - 8, _ => 'x'))
  }

  function Archived(budget: Content, receipt: Content, rotation: Content): map<Name, Hash> {
    map[BudgetCopy := OfContent(budget), ReceiptCopy := OfContent(receipt), RotationCopy := OfContent(rotation)]
  }

  /** The files of the finished folder. */
  function Whole(g: Hash, budget: Content, receipt: Content, rotation: Content, next: Content, renewed: Content,
                 manifest: Content):
    map<Path, Content>
  {
    map[ArchiveFile(g, BudgetCopy) := budget, ArchiveFile(g, ReceiptCopy) := receipt,
        ArchiveFile(g, RotationCopy) := rotation,
        StateFile(Generation(g), BudgetPart) := next, StateFile(Generation(g), ReceiptPart) := renewed,
        ReviewFile(g) := manifest]
  }

  // ---------- the window ----------

  lemma {:induction false} AllRelevant(rows: seq<Source>, attempts: set<int>)
    requires forall r | r in rows :: r.sample.at in attempts
    ensures Filtered(rows, attempts) == rows
  {
    FilteredStep(rows, attempts);
    hide Filtered;
    if rows != [] {
      var n := |rows| - 1;
      assert rows[n] in rows && forall r | r in rows[..n] :: r in rows;
      AllRelevant(rows[..n], attempts);
      assert rows == rows[..n] + [rows[n]];
    }
  }

  lemma FilteredStep(rows: seq<Source>, attempts: set<int>)
    ensures rows == [] ==> Filtered(rows, attempts) == []
    ensures rows != [] && rows[|rows| - 1].sample.at in attempts ==>
      Filtered(rows, attempts) == Filtered(rows[..|rows| - 1], attempts) + [rows[|rows| - 1]]
  {
  }

  lemma DueSources()
    ensures Relevant(Rows(Samples()), Attempts(Samples())) == Rows(Samples())
  {
    hide Sort, Filtered;
    var samples, rows := Samples(), Rows(Samples());
    AllRelevant(rows, Attempts(samples));
    SortedStays(rows, EarlierAttempt);
  }

  lemma DueIsComplete()
    ensures CompleteWindow(DueHistory(), Rows(Samples()))
  {
    var samples, rows := Samples(), Rows(Samples());
    forall i | 0 <= i < |samples| ensures HasRow(rows, samples[i]) { assert rows[i].sample == samples[i]; }
  }

  lemma DueWindow()
    ensures StatePath(DueDisk(), FileSize) == Some(Legacy)
    ensures Window(DueDisk(), FileSize) == Some(DueIdentity())
  {
    hide Relevant, CompleteWindow, Samples, Rows;
    DueSources();
    DueIsComplete();
    var d := DueDisk();
    assert StatePath(d, FileSize) == Some(Legacy);
    assert ReadFile(d, FileSize, StateFile(Legacy, BudgetPart)) == Bytes(Budget(DueHistory()));
    assert ReadFile(d, FileSize, StateFile(Legacy, ReceiptPart)) == Bytes(OldReceipt());
    assert ReadFile(d, FileSize, RotationFile) == Bytes(Rotation(Rows(Samples())));
    assert ReadFile(d, FileSize, StateFile(Legacy, Snapshot)) == Missing;
  }

  // ---------- the successor ----------

  lemma WholeIsPrepared(d0: Disk, d: Disk, g: Hash, identity: Identity, decision: Decision, receipt: Content,
                        rotation: Content)
    requires identity.state == Legacy && identity.snapshot.None? && rotation.Rotation?
    requires receipt.Receipt? && receipt.cooldown == identity.cooldown
    requires d0 == DiskOf(Budget(identity.history), receipt, rotation)
    requires d == Disk(d0.files + Whole(g, Budget(identity.history), receipt, rotation,
                                        Budget(NextHistory(identity.history, decision)), NextReceipt(receipt),
                                        Manifest(g, decision, g, identity,
                                                 Archived(Budget(identity.history), receipt, rotation))), {g})
    ensures Prepared(d0, d, FileSize, g, identity, decision,
                     Manifest(g, decision, g, identity, Archived(Budget(identity.history), receipt, rotation)))
  {
    hide NextHistory, DecisionSize, NextReceipt, Preparing, ArchiveIntact, Archives;
    AllArchived(d0, Budget(identity.history), receipt, rotation);
    ArchiveIsIntact(d, g, Budget(identity.history), receipt, rotation);
    WholeIsApart(d0, d, g, Budget(identity.history), receipt, rotation, Budget(NextHistory(identity.history, decision)),
                 NextReceipt(receipt), Manifest(g, decision, g, identity,
                                                Archived(Budget(identity.history), receipt, rotation)));
    NextKeeps(receipt);
  }

  lemma AllArchived(d0: Disk, budget: Content, receipt: Content, rotation: Content)
    requires d0 == DiskOf(budget, receipt, rotation)
    ensures var archived := Archived(budget, receipt, rotation);
      && Archives(archived, SnapshotCopy, d0, StateFile(Legacy, Snapshot))
      && Archives(archived, BudgetCopy, d0, StateFile(Legacy, BudgetPart))
      && Archives(archived, ReceiptCopy, d0, StateFile(Legacy, ReceiptPart))
      && Archives(archived, RotationCopy, d0, RotationFile) && Archives(archived, ReportCopy, d0, ReportFile)
  {
  }

  lemma NextKeeps(receipt: Content)
    requires receipt.Receipt?
    ensures NextReceipt(receipt).Receipt? && NextReceipt(receipt).cooldown == receipt.cooldown
    ensures NextReceipt(receipt).status == "UNKNOWN" && NextReceipt(receipt).requests == 0
  {
  }

  lemma ArchiveIsIntact(d: Disk, g: Hash, budget: Content, receipt: Content, rotation: Content)
    requires budget.Budget? && receipt.Receipt? && rotation.Rotation?
    requires ArchiveFile(g, BudgetCopy) in d.files && d.files[ArchiveFile(g, BudgetCopy)] == budget
    requires ArchiveFile(g, ReceiptCopy) in d.files && d.files[ArchiveFile(g, ReceiptCopy)] == receipt
    requires ArchiveFile(g, RotationCopy) in d.files && d.files[ArchiveFile(g, RotationCopy)] == rotation
    ensures ArchiveIntact(d, FileSize, g, Archived(budget, receipt, rotation))
  {
    hide DecisionSize;
  }

  lemma WholeIsApart(d0: Disk, d: Disk, g: Hash, budget: Content, receipt: Content, rotation: Content,
                     next: Content, renewed: Content, manifest: Content)
    requires d == Disk(d0.files + Whole(g, budget, receipt, rotation, next, renewed, manifest), d0.folders + {g})
    ensures Preparing(d0, d, g)
  {
    assert forall p | p in Whole(g, budget, receipt, rotation, next, renewed, manifest) :: Folder(p) == Some(g);
  }

  /** Every file and the decision can be read, the advance is allowed and goes through, and
      then there is no state: the manifest, one byte longer than its decision, is refused. */
  lemma OversizeManifest() returns (d0: Disk, decision: Decision, s: Disk)
    ensures Window(d0, FileSize).Some?
    ensures var identity := Window(d0, FileSize).value;
      && Allowed(d0, FileSize, OfIdentity(identity), decision, false)
      && Committed(d0, FileSize, OfIdentity(identity), identity, decision, s)
    ensures forall p | p in d0.files :: ReadFile(d0, FileSize, p).Bytes?
    ensures DecisionSize(decision) <= MAX_BYTES
    ensures StatePath(d0, FileSize) == Some(Legacy) && StatePath(s, FileSize) == None
  {
    hide Window, StatePath, Prepared, Whole, Archived, Rows, Samples, DueHistory, NextHistory, NextReceipt, Commit;
    var identity, g := DueIdentity(), OfIdentity(DueIdentity());
    d0, decision := DueDisk(), LongDecision(g);
    var budget, receipt, rotation := Budget(DueHistory()), OldReceipt(), Rotation(Rows(Samples()));
    var manifest := Manifest(g, decision, g, identity, Archived(budget, receipt, rotation));
    var d := Disk(d0.files + Whole(g, budget, receipt, rotation, Budget(NextHistory(DueHistory(), decision)),
                                   NextReceipt(receipt), manifest), {g});
    s := Commit(d, g, manifest);
    DueWindow();
    WholeIsPrepared(d0, d, g, identity, decision, receipt, rotation);
    CommittedState(d0, d, FileSize, g, identity, decision, manifest);
  }
}
