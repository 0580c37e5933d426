/**
 Advancing the cost review to a new generation: shantytown/cost_review.py.

 A file is a value, a hash is injective (a constructor around what it hashes), and a
 write that a crash interrupts leaves a torn file. `size` is the length of a file in
 bytes; how a value becomes bytes is not part of this model.
 */
module CostReview {
  import opened Basics
  import opened Sorting
  import opened TextStrip

  const TARGET: nat := 20
  const MAX_BYTES: nat := 4 * 1024 * 1024

  // ---------- files ----------

  datatype Mode = BoundedPilot | BoundedContinuous | OtherMode

  datatype Decision = Decision(window: Hash, accept: bool, mode: Mode, reviewer: string, evidence: string)

  datatype Sample = Sample(run: int, items: int, records: int, bytes: int, at: int)

  datatype Source = Source(sample: Sample, agent: string, harness: string, session: string, path: string)

  /** The budget history. `lifetime` stands for the accounting no review touches. */
  datatype History = History(runs: int, distinct: seq<Sample>, due: bool, accepted: Option<Decision>, lifetime: string)

  datatype Limits = Limits(items: int, records: int, bytes: int)

  const LIMITS := Limits(8, 1000, 4 * 1024 * 1024)

  datatype Identity = Identity(state: StateAt, limits: Limits, history: History, sources: seq<Source>,
                               snapshot: Option<Hash>, cooldown: Option<int>)

  datatype Name = SnapshotCopy | BudgetCopy | ReceiptCopy | RotationCopy | ReportCopy

  datatype Content =
    | Pointer(generation: Hash, manifest: Hash)
    | Manifest(window: Hash, decision: Decision, predecessor: Hash, identity: Identity, archived: map<Name, Hash>)
    | Budget(history: History)
    | Receipt(status: string, requests: int, cooldown: Option<int>)
    | Rotation(samples: seq<Source>)
    | Blob(text: string)
    | Torn

  datatype Hash = OfContent(c: Content) | OfIdentity(i: Identity)

  datatype StateAt = Legacy | Generation(g: Hash)

  datatype Part = Snapshot | BudgetPart | ReceiptPart

  datatype Path =
    | PointerFile
    | StateFile(state: StateAt, part: Part)
    | ReviewFile(g: Hash)
    | ArchiveFile(g: Hash, name: Name)
    | RotationFile
    | ReportFile

  datatype Disk = Disk(files: map<Path, Content>, folders: set<Hash>)

  function Folder(p: Path): Option<Hash> {
    match p
    case StateFile(Generation(g), _) => Some(g)
    case ReviewFile(g) => Some(g)
    case ArchiveFile(g, _) => Some(g)
    case _ => None
  }

  type Sizes = Content -> nat

  /** `_bytes`: what is there, when it is within the read bound. */
  datatype Bytes = Missing | Refused | Bytes(c: Content)

  function ReadFile(d: Disk, size: Sizes, p: Path): Bytes {
    if p !in d.files then Missing
    else if size(d.files[p]) > MAX_BYTES then Refused
    else Bytes(d.files[p])
  }

  // ---------- state_path ----------

  predicate ArchiveIntact(d: Disk, size: Sizes, g: Hash, archived: map<Name, Hash>) {
    forall n | n in archived ::
      ReadFile(d, size, ArchiveFile(g, n)).Bytes? && OfContent(ReadFile(d, size, ArchiveFile(g, n)).c) == archived[n]
  }

  /** Every check `state_path` makes of the generation a pointer names. */
  predicate GenerationSound(d: Disk, size: Sizes, g: Hash, manifest: Hash) {
    && g in d.folders
    && ReadFile(d, size, ReviewFile(g)).Bytes?
    && var review := ReadFile(d, size, ReviewFile(g)).c;
    && OfContent(review) == manifest
    && review.Manifest?
    && review.window == g && review.predecessor == g && OfIdentity(review.identity) == g
    && ArchiveIntact(d, size, g, review.archived)
    && (SnapshotCopy in review.archived ==> ReadFile(d, size, StateFile(Generation(g), Snapshot)).Bytes?)
  }

  /** `state_path`; None is a ValueError. */
  function StatePath(d: Disk, size: Sizes): Option<StateAt> {
    match ReadFile(d, size, PointerFile)
    case Missing => Some(Legacy)
    case Refused => None
    case Bytes(p) =>
      if p.Pointer? && GenerationSound(d, size, p.generation, p.manifest) then Some(Generation(p.generation)) else None
  }

  /** `state_path` reads the pointer and the files of the one folder it names. */
  lemma StatePathReads(d: Disk, d': Disk, size: Sizes, g: Hash)
    requires PointerFile in d.files <==> PointerFile in d'.files
    requires PointerFile in d.files ==> d.files[PointerFile] == d'.files[PointerFile]
    requires PointerFile in d.files && d.files[PointerFile].Pointer? ==> d.files[PointerFile].generation != g
    requires d'.folders - {g} == d.folders - {g}
    requires forall p | Folder(p).Some? && Folder(p).value != g :: ReadFile(d, size, p) == ReadFile(d', size, p)
    ensures StatePath(d', size) == StatePath(d, size)
  {
    if PointerFile in d.files && d.files[PointerFile].Pointer? {
      var h := d.files[PointerFile].generation;
      assert h in d.folders <==> h in d'.folders by {
        assert h in d.folders <==> h in d.folders - {g};
        assert h in d'.folders <==> h in d'.folders - {g};
      }
      assert ReadFile(d, size, ReviewFile(h)) == ReadFile(d', size, ReviewFile(h));
      assert ReadFile(d, size, StateFile(Generation(h), Snapshot))
        == ReadFile(d', size, StateFile(Generation(h), Snapshot));
      forall n ensures ReadFile(d, size, ArchiveFile(h, n)) == ReadFile(d', size, ArchiveFile(h, n)) {
      }
    }
  }

  /** The evidence a generation stands on: its manifest and the archived copies the manifest names. */
  predicate IsEvidence(d: Disk, g: Hash, p: Path) {
    || p == ReviewFile(g)
    || (p.ArchiveFile? && p.g == g && ReviewFile(g) in d.files && d.files[ReviewFile(g)].Manifest?
        && p.name in d.files[ReviewFile(g)].archived)
  }

  /** One piece of evidence lost, changed or grown past the bound, and there is no state to be found. */
  lemma DamageRefused(d: Disk, d': Disk, size: Sizes, g: Hash, p: Path)
    requires StatePath(d, size) == Some(Generation(g)) && IsEvidence(d, g, p)
    requires d'.folders == d.folders && forall q | q != p :: q in d.files <==> q in d'.files
    requires forall q | q != p && q in d.files :: d'.files[q] == d.files[q]
    requires p !in d'.files || size(d'.files[p]) > 4194304 || d'.files[p] != d.files[p]
    ensures p in d.files && StatePath(d', size) == None
  {
    assert PointerFile != p;
    assert d'.files[PointerFile] == d.files[PointerFile];
    if p.ArchiveFile? {
      assert d'.files[ReviewFile(g)] == d.files[ReviewFile(g)];
      var archived := d.files[ReviewFile(g)].archived;
      assert p.name in archived && ArchiveIntact(d, size, g, archived);
      assert ReadFile(d, size, ArchiveFile(g, p.name)).Bytes?;
    }
  }

  // ---------- window ----------

  predicate DistinctAttempts(samples: seq<Sample>) {
    forall i, j | 0 <= i < j < |samples| :: samples[i].at != samples[j].at
  }

  function Shape(s: Sample): (int, int, int) {
    (s.items, s.records, s.bytes)
  }

  predicate DistinctShapes(samples: seq<Sample>) {
    forall i, j | 0 <= i < j < |samples| :: Shape(samples[i]) != Shape(samples[j])
  }

  predicate SampleValid(s: Sample) {
    s.run >= 0 && s.items >= 0 && s.records >= 0 && s.bytes >= 0 && s.at > 0
  }

  predicate SourceNamed(s: Source) {
    s.agent != "" && s.harness != "" && s.session != "" && s.path != ""
  }

  predicate HasRow(sources: seq<Source>, sample: Sample) {
    exists j | 0 <= j < |sources| :: sources[j].sample == sample
  }

  /** Each sample has exactly one source row, and it repeats the sample. */
  predicate Sourced(samples: seq<Sample>, sources: seq<Source>) {
    && |sources| == |samples|
    && (forall i | 0 <= i < |samples| :: HasRow(sources, samples[i]))
    && (forall j | 0 <= j < |sources| :: SourceNamed(sources[j]))
  }

  /** A complete, due window of distinct observations, each with its source. */
  predicate CompleteWindow(h: History, sources: seq<Source>) {
    && h.due && |h.distinct| == TARGET
    && (forall i | 0 <= i < TARGET :: SampleValid(h.distinct[i]) && h.distinct[i].run <= h.runs)
    && DistinctAttempts(h.distinct) && DistinctShapes(h.distinct)
    && Sourced(h.distinct, sources)
  }

  function Attempts(samples: seq<Sample>): set<int> {
    set i | 0 <= i < |samples| :: samples[i].at
  }

  /** The rows of the rotation for these attempts, in the order they stand in. */
  function Filtered(rows: seq<Source>, attempts: set<int>): seq<Source> {
    if rows == [] then []
    else
      var e := rows[|rows| - 1];
      Filtered(rows[..|rows| - 1], attempts) + (if e.sample.at in attempts then [e] else [])
  }

  predicate EarlierAttempt(a: Source, b: Source) {
    a.sample.at < b.sample.at
  }

  /** The rotation rows of this window's attempts, in order of attempt. */
  function Relevant(rows: seq<Source>, attempts: set<int>): seq<Source> {
    Sort(Filtered(rows, attempts), EarlierAttempt)
  }

  /** A window that may be reviewed: twenty observations, all different in attempt and in shape, none later than
      the runs there were, and for each exactly one row that repeats it and names its source. */
  ghost predicate Reviewable(h: History, rows: seq<Source>) {
    && h.due && |h.distinct| == 20
    && (forall s | s in h.distinct ::
          s.run >= 0 && s.items >= 0 && s.records >= 0 && s.bytes >= 0 && s.at > 0 && s.run <= h.runs)
    && (forall i, j | 0 <= i < j < 20 :: h.distinct[i].at != h.distinct[j].at
          && (h.distinct[i].items != h.distinct[j].items || h.distinct[i].records != h.distinct[j].records
              || h.distinct[i].bytes != h.distinct[j].bytes))
    && |rows| == 20 && (forall s | s in h.distinct :: exists r | r in rows :: r.sample == s)
    && (forall r | r in rows :: r.agent != "" && r.harness != "" && r.session != "" && r.path != "")
  }

  lemma CompleteMeans(h: History, rows: seq<Source>)
    ensures CompleteWindow(h, rows) <==> Reviewable(h, rows)
  {
    if CompleteWindow(h, rows) {
      forall s | s in h.distinct ensures exists r | r in rows :: r.sample == s {
        var i :| 0 <= i < |h.distinct| && h.distinct[i] == s;
        assert HasRow(rows, h.distinct[i]);
        var j :| 0 <= j < |rows| && rows[j].sample == s;
        assert rows[j] in rows;
      }
    }
    if Reviewable(h, rows) {
      forall i | 0 <= i < |h.distinct| ensures HasRow(rows, h.distinct[i]) {
        assert h.distinct[i] in h.distinct;
        var r :| r in rows && r.sample == h.distinct[i];
        var j :| 0 <= j < |rows| && rows[j] == r;
      }
    }
  }

  /** `window`: the identity of the window under review; None is a ValueError. */
  function Window(d: Disk, size: Sizes): Option<Identity> {
    match StatePath(d, size)
    case None => None
    case Some(state) =>
      var budget := ReadFile(d, size, StateFile(state, BudgetPart));
      var rotation := ReadFile(d, size, RotationFile);
      var receipt := ReadFile(d, size, StateFile(state, ReceiptPart));
      var snapshot := ReadFile(d, size, StateFile(state, Snapshot));
      if !(budget.Bytes? && budget.c.Budget? && rotation.Bytes? && rotation.c.Rotation? && receipt.Bytes?
           && receipt.c.Receipt?)
         || snapshot.Refused? || snapshot == Bytes(Torn) then None
      else
        var h := budget.c.history;
        var sources := Relevant(rotation.c.samples, Attempts(h.distinct));
        if !CompleteWindow(h, sources) then None
        else if receipt.c.cooldown.Some? && receipt.c.cooldown.value < 0 then None
        else Some(Identity(state, LIMITS, h, sources,
                           if snapshot.Bytes? then Some(OfContent(snapshot.c)) else None, receipt.c.cooldown))
  }

  // ---------- advance ----------

  predicate Binds(decision: Decision, expected: Hash) {
    decision.window == expected && decision.accept && decision.mode != OtherMode
    && Strip(decision.reviewer) != "" && Strip(decision.evidence) != ""
  }

  /** The history a new generation starts from: the lifetime accounting stays, the window is empty. */
  function NextHistory(h: History, decision: Decision): History {
    h.(distinct := [], due := false, accepted := Some(decision))
  }

  function NextReceipt(r: Content): Content
    requires r.Receipt?
  {
    r.(status := "UNKNOWN", requests := 0)
  }

  /** Where each archived copy is read from. */
  function CopyFrom(state: StateAt, n: Name): Path {
    match n
    case SnapshotCopy => StateFile(state, Snapshot)
    case BudgetCopy => StateFile(state, BudgetPart)
    case ReceiptCopy => StateFile(state, ReceiptPart)
    case RotationCopy => RotationFile
    case ReportCopy => ReportFile
  }

  /** Nothing outside the folder being prepared has changed, the pointer included. */
  ghost predicate Preparing(d0: Disk, d: Disk, g: Hash) {
    && d.folders == d0.folders + {g}
    && (forall p | Folder(p) != Some(g) ::
          (p in d.files <==> p in d0.files) && (p in d.files ==> d.files[p] == d0.files[p]))
  }

  /** Under this name stands what that file held, when it was there. */
  predicate Archives(archived: map<Name, Hash>, n: Name, d0: Disk, from: Path) {
    && (n in archived <==> from in d0.files)
    && (n in archived ==> archived[n] == OfContent(d0.files[from]))
  }

  /** The prepared folder holds a whole successor for this manifest. */
  ghost predicate Prepared(d0: Disk, d: Disk, size: Sizes, g: Hash, identity: Identity, decision: Decision,
                           manifest: Content) {
    && Preparing(d0, d, g)
    && manifest.Manifest? && manifest.window == g && manifest.predecessor == g && manifest.identity == identity
    && manifest.decision == decision
    && ReviewFile(g) in d.files && d.files[ReviewFile(g)] == manifest
    && ArchiveIntact(d, size, g, manifest.archived)
    && BudgetCopy in manifest.archived && ReceiptCopy in manifest.archived
    && manifest.archived[BudgetCopy] == OfContent(Budget(identity.history))
    && (SnapshotCopy in manifest.archived <==> identity.snapshot.Some?)
    && (identity.snapshot.Some? ==>
          (identity.snapshot == Some(manifest.archived[SnapshotCopy])
           && ReadFile(d, size, StateFile(Generation(g), Snapshot)).Bytes?
           && OfContent(d.files[StateFile(Generation(g), Snapshot)]) == manifest.archived[SnapshotCopy]))
    && StateFile(Generation(g), BudgetPart) in d.files
    && d.files[StateFile(Generation(g), BudgetPart)] == Budget(NextHistory(identity.history, decision))
    && StateFile(Generation(g), ReceiptPart) in d.files && d.files[StateFile(Generation(g), ReceiptPart)].Receipt?
    && d.files[StateFile(Generation(g), ReceiptPart)].cooldown == identity.cooldown
    && d.files[StateFile(Generation(g), ReceiptPart)].status == "UNKNOWN"
    && d.files[StateFile(Generation(g), ReceiptPart)].requests == 0
    && Archives(manifest.archived, SnapshotCopy, d0, StateFile(identity.state, Snapshot))
    && Archives(manifest.archived, BudgetCopy, d0, StateFile(identity.state, BudgetPart))
    && Archives(manifest.archived, ReceiptCopy, d0, StateFile(identity.state, ReceiptPart))
    && Archives(manifest.archived, RotationCopy, d0, RotationFile)
    && Archives(manifest.archived, ReportCopy, d0, ReportFile)
  }

  /** The pointer swap. */
  function Commit(d: Disk, g: Hash, manifest: Content): Disk {
    d.(files := d.files[PointerFile := Pointer(g, OfContent(manifest))])
  }

  /** Before the swap, nothing can tell that a successor is being prepared. */
  lemma PreparingIsInvisible(d0: Disk, d: Disk, size: Sizes, g: Hash)
    requires Preparing(d0, d, g) && g !in d0.folders && StatePath(d0, size).Some?
    ensures StatePath(d, size) == StatePath(d0, size) && Window(d, size) == Window(d0, size)
  {
    hide ArchiveIntact, CompleteWindow, Relevant;
    forall p | Folder(p) != Some(g) ensures ReadFile(d, size, p) == ReadFile(d0, size, p) { }
    assert Folder(PointerFile) != Some(g);
    StatePathReads(d0, d, size, g);
    var state := StatePath(d0, size).value;
    forall part ensures ReadFile(d, size, StateFile(state, part)) == ReadFile(d0, size, StateFile(state, part)) {
      assert state.Generation? ==> state.g in d0.folders;
    }
    assert ReadFile(d, size, RotationFile) == ReadFile(d0, size, RotationFile);
  }

  /** After the swap the successor is the state, with every check passing, exactly when its
      manifest can be read at all: `advance` itself never checks that bound. */
  lemma CommittedState(d0: Disk, d: Disk, size: Sizes, g: Hash, identity: Identity, decision: Decision,
                       manifest: Content)
    requires Prepared(d0, d, size, g, identity, decision, manifest) && g == OfIdentity(identity)
    requires size(Pointer(g, OfContent(manifest))) <= MAX_BYTES
    ensures StatePath(Commit(d, g, manifest), size) == if size(manifest) <= MAX_BYTES then Some(Generation(g)) else None
  {
    var d' := Commit(d, g, manifest);
    forall p | p != PointerFile ensures ReadFile(d', size, p) == ReadFile(d, size, p) { }
    assert forall n :: ReadFile(d', size, ArchiveFile(g, n)) == ReadFile(d, size, ArchiveFile(g, n));
  }
}
