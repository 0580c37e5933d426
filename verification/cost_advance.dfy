/** `advance` and `rollover` step by step, over a disk whose writes may fail or tear at any point. */
module CostAdvance {
  import opened Basics
  import opened TextStrip
  import opened CostReview
  import opened CostWindow

  /** Every state the disk passes through is kept in `past`: a crash may leave any of them. */
  class Files {
    var d: Disk
    ghost var past: seq<Disk>

    ghost predicate Valid() reads this {
      past != [] && past[|past| - 1] == d
    }

    constructor (disk: Disk)
      ensures Valid() && d == disk && past == [disk]
    {
      d, past := disk, [disk];
    }

    method MakeFolder(g: Hash)
      requires Valid()
      modifies this
      ensures Valid() && d == old(d).(folders := old(d).folders + {g}) && past == old(past) + [d]
    {
      d := d.(folders := d.folders + {g});
      past := past + [d];
    }

    /** An exclusive write: false when it raised, with nothing or a torn file left behind. */
    method Write(p: Path, c: Content) returns (ok: bool)
      requires Valid()
      modifies this
      ensures Valid() && old(past) <= past
      ensures forall i | |old(past)| <= i < |past| ::
        past[i] == old(d).(files := old(d).files[p := Torn]) || past[i] == old(d).(files := old(d).files[p := c])
      ensures ok ==> p !in old(d).files && d == old(d).(files := old(d).files[p := c])
      ensures !ok ==> d == old(d) || d == old(d).(files := old(d).files[p := Torn])
    {
      if p in d.files { return false; }
      if * { return false; }
      var before := d;
      d := before.(files := before.files[p := Torn]);
      past := past + [d];
      if * { return false; }
      d := before.(files := before.files[p := c]);
      past := past + [d];
      return true;
    }

    /** An atomic replacement: false when it raised, with nothing changed. */
    method Replace(p: Path, c: Content) returns (ok: bool)
      requires Valid()
      modifies this
      ensures Valid()
      ensures ok ==> d == old(d).(files := old(d).files[p := c]) && past == old(past) + [d]
      ensures !ok ==> d == old(d) && past == old(past)
    {
      if * { return false; }
      d := d.(files := d.files[p := c]);
      past := past + [d];
      return true;
    }
  }

  datatype Outcome =
    | ValueError         // refused before anything was written
    | Ready              // a dry run
    | Interrupted        // a write or read failed; the generation stays for inspection
    | Uncertain          // committed, but the readback differs
    | Advanced

  /** What a crash during an advance may leave. */
  ghost predicate Reached(d0: Disk, size: Sizes, g: Hash, identity: Identity, decision: Decision, s: Disk) {
    || s == d0
    || Preparing(d0, s, g)
    || Committed(d0, size, g, identity, decision, s)
  }

  ghost predicate Committed(d0: Disk, size: Sizes, g: Hash, identity: Identity, decision: Decision, s: Disk) {
    exists d: Disk, manifest: Content ::
      Prepared(d0, d, size, g, identity, decision, manifest) && s == Commit(d, g, manifest)
  }

  /** At every point a crash can strike, the state is the untouched predecessor or a whole
      successor that passes all checks; a committed successor whose manifest exceeds the
      read bound is the one exception, and then there is no state at all. */
  lemma CrashSafe(d0: Disk, size: Sizes, g: Hash, identity: Identity, decision: Decision, s: Disk)
    requires Reached(d0, size, g, identity, decision, s)
    requires Window(d0, size) == Some(identity) && g == OfIdentity(identity) && g !in d0.folders
    requires forall m: Content :: size(Pointer(g, OfContent(m))) <= MAX_BYTES
    ensures forall p | Folder(p) != Some(g) && p != PointerFile :: ReadFile(s, size, p) == ReadFile(d0, size, p)
    ensures StatePath(s, size) == StatePath(d0, size)
         || StatePath(s, size) == Some(Generation(g))
         || (StatePath(s, size) == None && ReviewFile(g) in s.files && size(s.files[ReviewFile(g)]) > MAX_BYTES)
  {
    hide Window, ArchiveIntact;
    if s == d0 {
    } else if Preparing(d0, s, g) {
      WindowHasState(d0, size);
      PreparingIsInvisible(d0, s, size, g);
    } else {
      var d, manifest :| Prepared(d0, d, size, g, identity, decision, manifest) && s == Commit(d, g, manifest);
      CommittedState(d0, d, size, g, identity, decision, manifest);
    }
  }

  lemma WindowHasState(d: Disk, size: Sizes)
    requires Window(d, size).Some?
    ensures StatePath(d, size) == Some(Window(d, size).value.state)
  {
  }

  const NAMES := [SnapshotCopy, BudgetCopy, ReceiptCopy, RotationCopy, ReportCopy]

  /** What the archive loop has copied so far. */
  ghost predicate Copied(d0: Disk, d: Disk, size: Sizes, g: Hash, state: StateAt, copied: map<Name, Hash>, done: nat)
  {
    && done <= |NAMES|
    && (forall n | n in copied :: CopyFrom(state, n) in d0.files && copied[n] == OfContent(d0.files[CopyFrom(state, n)])
         && ReadFile(d, size, ArchiveFile(g, n)) == Bytes(d0.files[CopyFrom(state, n)]))
    && (forall j | 0 <= j < done :: NAMES[j] in copied <==> CopyFrom(state, NAMES[j]) in d0.files)
    && (forall n | n in copied :: n in NAMES[..done])
  }

  lemma CopyOne(d0: Disk, d: Disk, d': Disk, size: Sizes, g: Hash, state: StateAt, copied: map<Name, Hash>, done: nat)
    requires done < |NAMES| && Copied(d0, d, size, g, state, copied, done)
    requires var n := NAMES[done]; var from := CopyFrom(state, n);
      from in d0.files && size(d0.files[from]) <= MAX_BYTES && ArchiveFile(g, n) !in d.files
      && d' == d.(files := d.files[ArchiveFile(g, n) := d0.files[from]])
    ensures Copied(d0, d', size, g, state, copied[NAMES[done] := OfContent(d0.files[CopyFrom(state, NAMES[done])])],
                   done + 1)
  {
    var n := NAMES[done];
    var copied' := copied[n := OfContent(d0.files[CopyFrom(state, n)])];
    forall m | m in copied'
      ensures ReadFile(d', size, ArchiveFile(g, m)) == Bytes(d0.files[CopyFrom(state, m)]) && m in NAMES[..done + 1] {
      if m != n { assert m in NAMES[..done]; } else { assert NAMES[..done + 1][done] == n; }
    }
    forall j | 0 <= j < done + 1 ensures NAMES[j] in copied' <==> CopyFrom(state, NAMES[j]) in d0.files {
    }
  }

  lemma SkipOne(d0: Disk, d: Disk, size: Sizes, g: Hash, state: StateAt, copied: map<Name, Hash>, done: nat)
    requires done < |NAMES| && Copied(d0, d, size, g, state, copied, done)
    requires CopyFrom(state, NAMES[done]) !in d0.files
    ensures Copied(d0, d, size, g, state, copied, done + 1)
  {
    assert NAMES[..done] <= NAMES[..done + 1];
    forall m | m in copied ensures m in NAMES[..done + 1] {
      var j :| 0 <= j < done && NAMES[..done][j] == m;
      assert NAMES[..done + 1][j] == m;
    }
    forall j | 0 <= j < done + 1 ensures NAMES[j] in copied <==> CopyFrom(state, NAMES[j]) in d0.files { }
  }

  lemma StillCopied(d0: Disk, d: Disk, d': Disk, size: Sizes, g: Hash, state: StateAt, copied: map<Name, Hash>,
                    done: nat)
    requires Copied(d0, d, size, g, state, copied, done)
    requires forall n :: ReadFile(d', size, ArchiveFile(g, n)) == ReadFile(d, size, ArchiveFile(g, n))
    ensures Copied(d0, d', size, g, state, copied, done)
  {
  }

  /** All the writes of one folder are preparation. */
  lemma WritesPrepare(d0: Disk, d: Disk, s: Disk, g: Hash, p: Path, c: Content)
    requires Preparing(d0, d, g) && Folder(p) == Some(g) && s == d.(files := d.files[p := c])
    ensures Preparing(d0, s, g)
  {
  }

  lemma FolderPrepares(d0: Disk, d: Disk, g: Hash)
    requires d == d0.(folders := d0.folders + {g})
    ensures Preparing(d0, d, g)
  {
  }

  lemma NothingCopied(d0: Disk, d: Disk, size: Sizes, g: Hash, state: StateAt)
    ensures Copied(d0, d, size, g, state, map[], 0)
  {
  }

  /** What the window's identity says about the files it was read from. */
  ghost predicate IdentityOf(d0: Disk, size: Sizes, identity: Identity) {
    && (identity.state.Generation? ==> identity.state.g in d0.folders)
    && ReadFile(d0, size, CopyFrom(identity.state, BudgetCopy)) == Bytes(Budget(identity.history))
    && ReadFile(d0, size, CopyFrom(identity.state, ReceiptCopy)).Bytes?
    && ReadFile(d0, size, CopyFrom(identity.state, ReceiptCopy)).c.Receipt?
    && ReadFile(d0, size, CopyFrom(identity.state, ReceiptCopy)).c.cooldown == identity.cooldown
    && (var snapshot := ReadFile(d0, size, CopyFrom(identity.state, SnapshotCopy));
        if identity.snapshot.Some? then snapshot.Bytes? && identity.snapshot.value == OfContent(snapshot.c)
        else snapshot.Missing?)
  }

  lemma WindowFacts(d0: Disk, size: Sizes)
    requires Window(d0, size).Some?
    ensures IdentityOf(d0, size, Window(d0, size).value)
  {
    hide CompleteWindow, Relevant, ArchiveIntact;
  }

  /** The files an advance copies are outside the folder it prepares. */
  lemma SourceUntouched(d0: Disk, d: Disk, size: Sizes, g: Hash, state: StateAt, n: Name)
    requires Preparing(d0, d, g) && (state.Generation? ==> state.g in d0.folders) && g !in d0.folders
    ensures ReadFile(d, size, CopyFrom(state, n)) == ReadFile(d0, size, CopyFrom(state, n))
  {
    assert Folder(CopyFrom(state, n)) != Some(g);
  }

  method WriteStep(fs: Files, ghost d0: Disk, ghost size: Sizes, ghost g: Hash, ghost identity: Identity,
                   ghost decision: Decision,
                   p: Path, c: Content) returns (ok: bool)
    requires fs.Valid() && Preparing(d0, fs.d, g) && Folder(p) == Some(g)
    modifies fs
    ensures old(fs.past) <= fs.past && fs.Valid()
    ensures Preparing(d0, fs.d, g)
    ensures forall j | |old(fs.past)| <= j < |fs.past| :: Reached(d0, size, g, identity, decision, fs.past[j])
    ensures ok ==> p !in old(fs.d).files && fs.d == old(fs.d).(files := old(fs.d).files[p := c])
  {
    hide Preparing, Committed;
    ghost var before := fs.d;
    ok := fs.Write(p, c);
    WritesPrepare(d0, before, before.(files := before.files[p := Torn]), g, p, Torn);
    WritesPrepare(d0, before, before.(files := before.files[p := c]), g, p, c);
  }

  lemma CopiedFacts(d0: Disk, d: Disk, size: Sizes, g: Hash, identity: Identity, copied: map<Name, Hash>)
    requires Copied(d0, d, size, g, identity.state, copied, |NAMES|) && IdentityOf(d0, size, identity)
    ensures BudgetCopy in copied && copied[BudgetCopy] == OfContent(Budget(identity.history))
    ensures ReceiptCopy in copied
    ensures ReadFile(d, size, ArchiveFile(g, ReceiptCopy)) == ReadFile(d0, size, CopyFrom(identity.state, ReceiptCopy))
    ensures SnapshotCopy in copied <==> identity.snapshot.Some?
    ensures identity.snapshot.Some? ==>
      (Some(copied[SnapshotCopy]) == identity.snapshot && ReadFile(d, size, ArchiveFile(g, SnapshotCopy)).Bytes?
      && OfContent(ReadFile(d, size, ArchiveFile(g, SnapshotCopy)).c) == copied[SnapshotCopy])
    ensures ArchiveIntact(d, size, g, copied)
  {
    assert NAMES[0] == SnapshotCopy && NAMES[1] == BudgetCopy && NAMES[2] == ReceiptCopy;
  }

  /** The files written after the archive leave the archive as it is. */
  lemma WholeSuccessor(d0: Disk, d1: Disk, d2: Disk, size: Sizes, g: Hash, identity: Identity, decision: Decision,
                       copied: map<Name, Hash>, manifest: Content)
    requires manifest == Manifest(g, decision, g, identity, copied)
    requires Preparing(d0, d2, g) && Copied(d0, d1, size, g, identity.state, copied, |NAMES|)
    requires IdentityOf(d0, size, identity)
    requires forall n :: ReadFile(d2, size, ArchiveFile(g, n)) == ReadFile(d1, size, ArchiveFile(g, n))
    requires StateFile(Generation(g), BudgetPart) in d2.files
    requires d2.files[StateFile(Generation(g), BudgetPart)] == Budget(NextHistory(identity.history, decision))
    requires StateFile(Generation(g), ReceiptPart) in d2.files
    requires d2.files[StateFile(Generation(g), ReceiptPart)].Receipt?
    requires d2.files[StateFile(Generation(g), ReceiptPart)].cooldown == identity.cooldown
    requires d2.files[StateFile(Generation(g), ReceiptPart)].status == "UNKNOWN"
    requires d2.files[StateFile(Generation(g), ReceiptPart)].requests == 0
    requires ReviewFile(g) in d2.files && d2.files[ReviewFile(g)] == manifest
    requires ReadFile(d1, size, ArchiveFile(g, SnapshotCopy)).Bytes? ==>
      ReadFile(d2, size, StateFile(Generation(g), Snapshot)) == ReadFile(d1, size, ArchiveFile(g, SnapshotCopy))
    ensures Prepared(d0, d2, size, g, identity, decision, manifest)
  {
    hide Preparing, Copied, IdentityOf, NextHistory;
    StillCopied(d0, d1, d2, size, g, identity.state, copied, |NAMES|);
    CopiedFacts(d0, d2, size, g, identity, copied);
    CopiedAll(d0, d2, size, g, identity.state, copied);
  }

  /** The five kinds of evidence, each from where it stands. */
  lemma CopiedAll(d0: Disk, d: Disk, size: Sizes, g: Hash, state: StateAt, copied: map<Name, Hash>)
    requires Copied(d0, d, size, g, state, copied, |NAMES|)
    ensures Archives(copied, SnapshotCopy, d0, StateFile(state, Snapshot))
    ensures Archives(copied, BudgetCopy, d0, StateFile(state, BudgetPart))
    ensures Archives(copied, ReceiptCopy, d0, StateFile(state, ReceiptPart))
    ensures Archives(copied, RotationCopy, d0, RotationFile)
    ensures Archives(copied, ReportCopy, d0, ReportFile)
  {
    assert NAMES[0] == SnapshotCopy && NAMES[1] == BudgetCopy && NAMES[2] == ReceiptCopy;
    assert NAMES[3] == RotationCopy && NAMES[4] == ReportCopy;
  }

  /** The archive loop: each piece of evidence that exists is copied, or the preparation stops. */
  method ArchiveAll(fs: Files, ghost d0: Disk, size: Sizes, g: Hash, identity: Identity, ghost decision: Decision)
    returns (copied: Option<map<Name, Hash>>)
    requires fs.Valid() && fs.d == d0.(folders := d0.folders + {g}) && g !in d0.folders
    requires IdentityOf(d0, size, identity)
    modifies fs
    ensures fs.Valid() && old(fs.past) <= fs.past
    ensures forall j | |old(fs.past)| <= j < |fs.past| :: Reached(d0, size, g, identity, decision, fs.past[j])
    ensures Preparing(d0, fs.d, g)
    ensures copied.Some? ==> Copied(d0, fs.d, size, g, identity.state, copied.value, |NAMES|)
  {
    hide Preparing, Copied, Committed, ReadFile;
    var state := identity.state;
    var done: map<Name, Hash> := map[];
    FolderPrepares(d0, fs.d, g);
    NothingCopied(d0, fs.d, size, g, state);
    for i := 0 to |NAMES|
      invariant fs.Valid() && old(fs.past) <= fs.past
      invariant Preparing(d0, fs.d, g) && Copied(d0, fs.d, size, g, state, done, i)
      invariant forall j | |old(fs.past)| <= j < |fs.past| :: Reached(d0, size, g, identity, decision, fs.past[j])
    {
      var n := NAMES[i];
      SourceUntouched(d0, fs.d, size, g, state, n);
      var raw := ReadFile(fs.d, size, CopyFrom(state, n));
      ReadMeans(d0, size, CopyFrom(state, n));
      if raw.Refused? { return None; }
      if raw.Missing? {
        SkipOne(d0, fs.d, size, g, state, done, i);
      } else {
        ghost var before := fs.d;
        var ok := WriteStep(fs, d0, size, g, identity, decision, ArchiveFile(g, n), raw.c);
        if !ok { return None; }
        CopyOne(d0, before, fs.d, size, g, state, done, i);
        done := done[n := OfContent(raw.c)];
      }
    }
    return Some(done);
  }

  lemma ReadMeans(d: Disk, size: Sizes, p: Path)
    ensures ReadFile(d, size, p).Missing? <==> p !in d.files
    ensures ReadFile(d, size, p).Bytes? ==>
      p in d.files && ReadFile(d, size, p).c == d.files[p] && size(d.files[p]) <= MAX_BYTES
  {
  }

  /** The successor's own files, its manifest last. */
  method WriteSuccessor(fs: Files, ghost d0: Disk, size: Sizes, g: Hash, identity: Identity, decision: Decision,
                        copied: map<Name, Hash>)
    returns (manifest: Option<Content>)
    requires fs.Valid() && Preparing(d0, fs.d, g) && IdentityOf(d0, size, identity)
    requires Copied(d0, fs.d, size, g, identity.state, copied, |NAMES|)
    modifies fs
    ensures fs.Valid() && old(fs.past) <= fs.past
    ensures forall j | |old(fs.past)| <= j < |fs.past| :: Reached(d0, size, g, identity, decision, fs.past[j])
    ensures Preparing(d0, fs.d, g)
    ensures manifest.Some? ==> Prepared(d0, fs.d, size, g, identity, decision, manifest.value)
  {
    hide Preparing, Copied, Committed, Prepared, NextHistory, IdentityOf, ArchiveIntact;
    ghost var d1 := fs.d;
    CopiedFacts(d0, fs.d, size, g, identity, copied);
    ReceiptFacts(d0, size, identity);
    var ok := WriteStep(fs, d0, size, g, identity, decision, StateFile(Generation(g), BudgetPart),
                        Budget(NextHistory(identity.history, decision)));
    if !ok { return None; }
    var snapshot := ReadFile(fs.d, size, ArchiveFile(g, SnapshotCopy));
    assert snapshot == ReadFile(d1, size, ArchiveFile(g, SnapshotCopy));
    if snapshot.Refused? { return None; }
    if snapshot.Bytes? {
      ok := WriteStep(fs, d0, size, g, identity, decision, StateFile(Generation(g), Snapshot), snapshot.c);
      if !ok { return None; }
    }
    var receipt := ReadFile(fs.d, size, ArchiveFile(g, ReceiptCopy));
    assert receipt == ReadFile(d1, size, ArchiveFile(g, ReceiptCopy));
    if !receipt.Bytes? || !receipt.c.Receipt? { return None; }
    ok := WriteStep(fs, d0, size, g, identity, decision, StateFile(Generation(g), ReceiptPart), NextReceipt(receipt.c));
    if !ok { return None; }
    var review := Manifest(g, decision, g, identity, copied);
    ok := WriteStep(fs, d0, size, g, identity, decision, ReviewFile(g), review);
    if !ok { return None; }
    WholeSuccessor(d0, d1, fs.d, size, g, identity, decision, copied, review);
    return Some(review);
  }

  lemma ReceiptFacts(d0: Disk, size: Sizes, identity: Identity)
    requires IdentityOf(d0, size, identity)
    ensures ReadFile(d0, size, CopyFrom(identity.state, ReceiptCopy)).Bytes?
    ensures var c := ReadFile(d0, size, CopyFrom(identity.state, ReceiptCopy)).c;
      c.Receipt? && c.cooldown == identity.cooldown
  {
  }

  ghost predicate Allowed(d0: Disk, size: Sizes, expected: Hash, decision: Decision, pending: bool) {
    && Window(d0, size).Some? && expected == OfIdentity(Window(d0, size).value)
    && Binds(decision, expected) && expected !in d0.folders && !pending
  }

  /** `advance`. `pending` is whether some cost write still awaits reconciliation. */
  method Advance(fs: Files, size: Sizes, expected: Hash, decision: Decision, pending: bool, execute: bool)
      returns (outcome: Outcome)
    requires fs.Valid()
    modifies fs
    ensures fs.Valid() && old(fs.past) <= fs.past
    ensures outcome.ValueError? <==> !Allowed(old(fs.d), size, expected, decision, pending)
    // whoever rules has accepted this very window, in one of the two bounded modes, by name and with evidence
    ensures !(decision.accept && decision.window == expected && Window(old(fs.d), size).Some?
              && expected == OfIdentity(Window(old(fs.d), size).value)
              && (decision.mode == BoundedPilot || decision.mode == BoundedContinuous)
              && Strip(decision.reviewer) != "" && Strip(decision.evidence) != "") ==>
      outcome.ValueError? && fs.d == old(fs.d) && fs.past == old(fs.past)
    ensures outcome.ValueError? ==>
      || !decision.accept || decision.window != expected || decision.mode == OtherMode
      || Strip(decision.reviewer) == "" || Strip(decision.evidence) == "" || pending || expected in old(fs.d).folders
      || Window(old(fs.d), size).None? || expected != OfIdentity(Window(old(fs.d), size).value)
    ensures outcome.ValueError? || outcome.Ready? ==> fs.d == old(fs.d) && fs.past == old(fs.past)
    ensures !outcome.ValueError? ==>
      forall i | |old(fs.past)| <= i < |fs.past| ::
        Reached(old(fs.d), size, expected, Window(old(fs.d), size).value, decision, fs.past[i])
    ensures outcome.Advanced? || outcome.Uncertain? ==>
      Committed(old(fs.d), size, expected, Window(old(fs.d), size).value, decision, fs.d)
    ensures outcome.Advanced? ==> StatePath(fs.d, size) == Some(Generation(expected))
    ensures outcome.Uncertain? ==> StatePath(fs.d, size) != Some(Generation(expected))
  {
    hide Window, StatePath, Preparing, Copied, Prepared, Commit, Binds, IdentityOf;
    ghost var d0 := fs.d;
    var current := ReadWindow(fs.d, size);
    if current.None? || expected != OfIdentity(current.value) { return ValueError; }
    Ruled(decision, expected);
    if !Binds(decision, expected) || pending || expected in fs.d.folders { return ValueError; }
    if !execute { return Ready; }
    var identity := current.value;
    WindowFacts(d0, size);
    fs.MakeFolder(expected);
    FolderPrepares(d0, fs.d, expected);
    var copied := ArchiveAll(fs, d0, size, expected, identity, decision);
    if copied.None? { return Interrupted; }
    var manifest := WriteSuccessor(fs, d0, size, expected, identity, decision, copied.value);
    if manifest.None? { return Interrupted; }
    var again := ReadWindow(fs.d, size);
    if again != current { return Interrupted; }
    ghost var d2 := fs.d;
    var ok := fs.Replace(PointerFile, Pointer(expected, OfContent(manifest.value)));
    if !ok { return Interrupted; }
    CommitIs(d2, expected, manifest.value);
    assert Committed(d0, size, expected, identity, decision, fs.d);
    if StatePath(fs.d, size) != Some(Generation(expected)) { return Uncertain; }
    return Advanced;
  }

  lemma Ruled(decision: Decision, expected: Hash)
    ensures Binds(decision, expected) <==>
      && decision.accept && decision.window == expected
      && (decision.mode == BoundedPilot || decision.mode == BoundedContinuous)
      && Strip(decision.reviewer) != "" && Strip(decision.evidence) != ""
  {
  }

  lemma CommitIs(d: Disk, g: Hash, manifest: Content)
    ensures Commit(d, g, manifest) == d.(files := d.files[PointerFile := Pointer(g, OfContent(manifest))])
  {
  }
}
