/**
 Tend passes that overlap, and senders, over the records of one pane: shantytown/delivery.py lets go of the lock
 between observing the records, claiming one, typing it and writing what became of it. What still holds then, and
 when a text can be typed again twice.
 */
module DeliveryOverlap {
  import opened Basics
  import opened Delivery
  import opened DeliveryTend

  type Pass = nat

  /** How far the one attempt of a pass has come. */
  datatype Progress = Typing | Sent | Stored | Marked | Stopped

  datatype Attempt = Attempt(id: Id, progress: Progress)

  /** The records on disk, what each pass has in hand, and the attempt each pass has made. */
  datatype Table = Table(records: map<Id, Record>, hands: map<(Pass, Id), Record>, attempts: map<Pass, Attempt>,
                         trace: seq<Event>)

  const START := Table(map[], map[], map[], [])

  datatype Step =
    | Senders(records: map<Id, Record>)
    // under the lock: observe a record, perhaps with a notice, and keep it in hand, unless that raised
    | Load(pass: Pass, id: Id, about: seq<Message>, readable: bool, after: Record, ok: bool, noticed: bool)
    // under the lock: write the claim, and, when that did not raise, begin to type
    | Claim(pass: Pass, id: Id, session: Option<int>, screen: Screen, written: bool, began: bool)
    // the send did not raise
    | Submit(pass: Pass)
    // under the lock: write the record in hand as delivered
    | Settle(pass: Pass, written: bool, kept: bool)
    // the pointer in hand is marked read
    | MarkRead(pass: Pass)

  function Claimed(hand: Record): Record {
    hand.(recoveryAttempted := true)
  }

  /** A pass observes one record. */
  ghost predicate LoadStep(t: Table, step: Step, t': Table)
    requires step.Load?
  {
    && step.pass !in t.attempts && step.id in t.records && !Closed(t.records[step.id])
    && ObservedBy(t.records[step.id], step.after, step.about, step.readable, step.ok, step.noticed)
    && t'.records == t.records[step.id := step.after] && t'.attempts == t.attempts
    && t'.hands == (if step.ok && !Closed(step.after) then t.hands[(step.pass, step.id) := step.after] else t.hands)
    && t'.trace == (if step.noticed then t.trace + [Noticed(step.id)] else t.trace)
  }

  function SightOf(step: Step): Sight
    requires step.Claim?
  {
    Sight(step.session, step.screen, true)
  }

  /** A claim is decided over the record in hand, whatever is on disk. */
  ghost predicate ClaimStep(t: Table, step: Step, t': Table)
    requires step.Claim?
  {
    && step.pass !in t.attempts && (step.pass, step.id) in t.hands
    && var hand := t.hands[(step.pass, step.id)];
    && MayRecover(hand, true, step.session, step.screen) && (step.began ==> step.written)
    && t'.records == (if step.written then t.records[step.id := Claimed(hand)] else t.records)
    && t'.hands == t.hands
    && t'.attempts == t.attempts[step.pass := Attempt(step.id, if step.began then Typing else Stopped)]
    && t'.trace == (if step.began then t.trace + [Recovered(step.id, Claimed(hand), SightOf(step))] else t.trace)
  }

  /** The pass has come this far with a record it has in hand. */
  predicate At(t: Table, pass: Pass, progress: Progress) {
    pass in t.attempts && t.attempts[pass].progress == progress && (pass, t.attempts[pass].id) in t.hands
  }

  function Moved(t: Table, pass: Pass, progress: Progress): map<Pass, Attempt>
    requires pass in t.attempts
  {
    t.attempts[pass := t.attempts[pass].(progress := progress)]
  }

  /** What follows a claim, none of it looking at the disk again. */
  ghost predicate EndStep(t: Table, step: Step, t': Table)
    requires step.Submit? || step.Settle? || step.MarkRead?
  {
    && step.pass in t.attempts && (step.pass, t.attempts[step.pass].id) in t.hands
    && var id := t.attempts[step.pass].id;
    && var hand := t.hands[(step.pass, id)];
    match step
    case Submit(pass) =>
      At(t, pass, Typing) && t' == t.(attempts := Moved(t, pass, Sent), trace := t.trace + [Submitted(id)])
    case Settle(pass, written, kept) =>
      && At(t, pass, Sent) && (kept ==> written)
      && t' == t.(attempts := Moved(t, pass, if kept then Stored else Stopped),
                  records := if written then t.records[id := Claimed(hand).(state := Delivered)] else t.records)
    case MarkRead(pass) =>
      && At(t, pass, Stored) && hand.pointer.Some?
      && t' == t.(attempts := Moved(t, pass, Marked), trace := t.trace + [MarkedRead(id, hand.pointer.value)])
  }

  /** One step of a pass or of the senders. */
  ghost predicate StepOf(t: Table, step: Step, t': Table) {
    if step.Senders? then BySenders(t.records, step.records) && t' == t.(records := step.records)
    else if step.Load? then LoadStep(t, step, t')
    else if step.Claim? then ClaimStep(t, step, t')
    else EndStep(t, step, t')
  }

  ghost predicate IsRun(steps: seq<Step>, tables: seq<Table>) {
    && |tables| == |steps| + 1 && tables[0] == START
    && forall k | 0 <= k < |steps| :: StepOf(tables[k], steps[k], tables[k + 1])
  }

  /** Some pass begins to type this record at `k`. */
  predicate Began(steps: seq<Step>, k: nat, id: Id) {
    k < |steps| && steps[k].Claim? && steps[k].began && steps[k].id == id
  }

  predicate Loads(steps: seq<Step>, k: nat, pass: Pass, id: Id) {
    k < |steps| && steps[k].Load? && steps[k].ok && steps[k].pass == pass && steps[k].id == id
  }

  /** A pass loads the record before another pass claims it, and then claims it too. */
  ghost predicate Overlap(steps: seq<Step>, id: Id) {
    exists load: nat, first: nat, second: nat :: OverlapAt(steps, id, load, first, second)
  }

  predicate OverlapAt(steps: seq<Step>, id: Id, load: nat, first: nat, second: nat) {
    && load < first < second && Began(steps, first, id) && Began(steps, second, id)
    && steps[first].pass != steps[second].pass && Loads(steps, load, steps[second].pass, id)
  }

  // ---------- counting ----------

  function Beginnings(steps: seq<Step>, id: Id): nat {
    if steps == [] then 0
    else
      var step := steps[|steps| - 1];
      Beginnings(steps[..|steps| - 1], id) + (if step.Claim? && step.began && step.id == id then 1 else 0)
  }

  lemma RunPrefix(steps: seq<Step>, tables: seq<Table>)
    requires IsRun(steps, tables) && steps != []
    ensures IsRun(steps[..|steps| - 1], tables[..|tables| - 1])
  {
    hide StepOf;
    var front, before := steps[..|steps| - 1], tables[..|tables| - 1];
    forall k | 0 <= k < |front| ensures StepOf(before[k], front[k], before[k + 1]) {
      assert StepOf(tables[k], steps[k], tables[k + 1]);
    }
  }

  /** The trace holds one recovery for each time a pass began. */
  lemma {:induction false} RecoveriesAreBeginnings(steps: seq<Step>, tables: seq<Table>, id: Id)
    requires IsRun(steps, tables)
    ensures Recoveries(tables[|steps|].trace, id) == Beginnings(steps, id)
    decreases |steps|
  {
    hide Recoveries, StepOf;
    if steps == [] {
      assert Recoveries([], id) == 0 by { NoRecoveries(id); }
    } else {
      var n := |steps| - 1;
      RunPrefix(steps, tables);
      RecoveriesAreBeginnings(steps[..n], tables[..n + 1], id);
      assert StepOf(tables[n], steps[n], tables[n + 1]);
      OneStepRecovers(tables[n], steps[n], tables[n + 1], id);
    }
  }

  lemma NoRecoveries(id: Id)
    ensures Recoveries([], id) == 0
  {
  }

  lemma OneStepRecovers(t: Table, step: Step, t': Table, id: Id)
    requires StepOf(t, step, t')
    ensures Recoveries(t'.trace, id)
      == Recoveries(t.trace, id) + (if step.Claim? && step.began && step.id == id then 1 else 0)
  {
    hide Recoveries, Notices, MayRecover, ObservedBy, BySenders, Legal, Lawful;
    if t'.trace != t.trace { Appended(t.trace, t'.trace[|t.trace|]); }
  }

  lemma {:induction false} SomeBeginning(steps: seq<Step>, id: Id) returns (k: nat)
    requires Beginnings(steps, id) >= 1
    ensures Began(steps, k, id)
    ensures Beginnings(steps[..k], id) == Beginnings(steps, id) - 1
  {
    var n := |steps| - 1;
    if steps[n].Claim? && steps[n].began && steps[n].id == id {
      k := n;
    } else {
      k := SomeBeginning(steps[..n], id);
      assert steps[..n][..k] == steps[..k];
    }
  }

  lemma {:induction false} CountsBeginning(steps: seq<Step>, k: nat, id: Id)
    requires Began(steps, k, id)
    ensures Beginnings(steps, id) >= Beginnings(steps[..k], id) + 1
    decreases |steps|
  {
    var n := |steps| - 1;
    if k < n {
      CountsBeginning(steps[..n], k, id);
      assert steps[..n][..k] == steps[..k];
    }
  }

  // ---------- what stays ----------

  lemma FlagStep(t: Table, step: Step, t': Table, id: Id)
    requires StepOf(t, step, t') && id in t.records && t.records[id].recoveryAttempted
    ensures id in t'.records && t'.records[id].recoveryAttempted
  {
    hide MayRecover, Noted;
  }

  /** Once a claim is on disk it stays there. */
  lemma {:induction false} FlagStays(steps: seq<Step>, tables: seq<Table>, a: nat, b: nat, id: Id)
    requires IsRun(steps, tables) && a <= b <= |steps| && id in tables[a].records
    requires tables[a].records[id].recoveryAttempted
    ensures id in tables[b].records && tables[b].records[id].recoveryAttempted
    decreases b - a
  {
    hide StepOf;
    if a < b {
      FlagStays(steps, tables, a, b - 1, id);
      assert StepOf(tables[b - 1], steps[b - 1], tables[b]);
      FlagStep(tables[b - 1], steps[b - 1], tables[b], id);
    }
  }

  lemma AttemptStep(t: Table, step: Step, t': Table, pass: Pass)
    requires StepOf(t, step, t')
    ensures pass in t.attempts ==> pass in t'.attempts && t'.attempts[pass].id == t.attempts[pass].id
  {
    hide MayRecover, ObservedBy, BySenders;
  }

  /** A pass makes one attempt. */
  lemma {:induction false} AttemptStays(steps: seq<Step>, tables: seq<Table>, a: nat, b: nat, pass: Pass)
    requires IsRun(steps, tables) && a <= b <= |steps| && pass in tables[a].attempts
    ensures pass in tables[b].attempts && tables[b].attempts[pass].id == tables[a].attempts[pass].id
    decreases b - a
  {
    hide StepOf;
    if a < b {
      AttemptStays(steps, tables, a, b - 1, pass);
      assert StepOf(tables[b - 1], steps[b - 1], tables[b]);
      AttemptStep(tables[b - 1], steps[b - 1], tables[b], pass);
    }
  }

  lemma HandStep(t: Table, step: Step, t': Table, pass: Pass, id: Id)
    requires StepOf(t, step, t') && (pass, id) in t'.hands
    ensures (pass, id) !in t.hands || t'.hands[(pass, id)] != t.hands[(pass, id)] ==>
      Loads([step], 0, pass, id) && t'.hands[(pass, id)] == step.after
      && id in t.records && t.records[id].recoveryAttempted == step.after.recoveryAttempted
  {
    hide MayRecover, BySenders, Noted;
  }

  /** What a pass has in hand is what was on disk, the claim included, when it loaded it. */
  lemma {:induction false} HandFrom(steps: seq<Step>, tables: seq<Table>, n: nat, pass: Pass, id: Id)
      returns (load: nat)
    requires IsRun(steps, tables) && n <= |steps| && (pass, id) in tables[n].hands
    ensures load < n && Loads(steps, load, pass, id) && id in tables[load].records
    ensures tables[load].records[id].recoveryAttempted == tables[n].hands[(pass, id)].recoveryAttempted
    decreases n
  {
    hide StepOf;
    assert n > 0;
    assert StepOf(tables[n - 1], steps[n - 1], tables[n]);
    HandStep(tables[n - 1], steps[n - 1], tables[n], pass, id);
    if (pass, id) in tables[n - 1].hands && tables[n].hands[(pass, id)] == tables[n - 1].hands[(pass, id)] {
      load := HandFrom(steps, tables, n - 1, pass, id);
    } else {
      load := n - 1;
    }
  }

  lemma ClaimMeans(t: Table, step: Step, t': Table)
    requires StepOf(t, step, t') && step.Claim? && step.began
    ensures step.pass !in t.attempts && step.pass in t'.attempts
    ensures (step.pass, step.id) in t.hands && !t.hands[(step.pass, step.id)].recoveryAttempted
    ensures step.id in t'.records && t'.records[step.id].recoveryAttempted
  {
  }

  // ---------- the theorem ----------

  /** Over all interleavings of passes, senders and failures, a record is typed again more than once exactly when
      a pass loads it before another pass claims it, and then claims it too. */
  lemma RecoveredTwiceIff(steps: seq<Step>, tables: seq<Table>, id: Id)
    requires IsRun(steps, tables)
    ensures Recoveries(tables[|steps|].trace, id) > 1 <==> Overlap(steps, id)
  {
    hide Recoveries, Beginnings, IsRun, StepOf;
    RecoveriesAreBeginnings(steps, tables, id);
    if Overlap(steps, id) {
      var load: nat, first: nat, second: nat :| OverlapAt(steps, id, load, first, second);
      CountsBeginning(steps, second, id);
      assert Began(steps[..second], first, id);
      CountsBeginning(steps[..second], first, id);
    }
    if Beginnings(steps, id) > 1 {
      var second := SomeBeginning(steps, id);
      var first := SomeBeginning(steps[..second], id);
      LoadedBefore(steps, tables, first, second, id);
    }
  }

  lemma LoadedBefore(steps: seq<Step>, tables: seq<Table>, first: nat, second: nat, id: Id)
    requires IsRun(steps, tables) && first < second < |steps|
    requires Began(steps, first, id) && Began(steps, second, id)
    ensures Overlap(steps, id)
  {
    hide StepOf;
    var p, q := steps[first].pass, steps[second].pass;
    assert StepOf(tables[first], steps[first], tables[first + 1])
      && StepOf(tables[second], steps[second], tables[second + 1]);
    ClaimMeans(tables[first], steps[first], tables[first + 1]);
    ClaimMeans(tables[second], steps[second], tables[second + 1]);
    AttemptStays(steps, tables, first + 1, second, p);
    var load := HandFrom(steps, tables, second, q, id);
    if load > first { FlagStays(steps, tables, first + 1, load, id); }
    assert OverlapAt(steps, id, load, first, second);
  }

  // ---------- what holds over every run ----------

  /** A record that was noticed once is noticed on disk. */
  predicate NoticeKept(t: Table, id: Id, notices: nat) {
    notices <= 1 && (notices == 1 ==> id in t.records && !t.records[id].pointerState.NoPointer?)
  }

  /** The same text in the same session, made at the same time. */
  predicate SameBody(a: Record, b: Record) {
    a.text == b.text && a.session == b.session && a.created == b.created
  }

  /** The record in hand is one on disk, up to what passes and senders rewrite. */
  predicate OnDisk(t: Table, id: Id, hand: Record) {
    id in t.records && SameBody(hand, t.records[id])
  }

  /** Typed again: with a recorded pointer, in the session of the text, which is the one on disk, and into a
      composer that held exactly that text or, after it was cleared, nothing. */
  predicate TypedWell(t: Table, e: Event) {
    e.Recovered? ==>
      MayType(e.record, e.sight) && OnDisk(t, e.id, e.record)
  }

  ghost predicate Sound(t: Table) {
    && (forall id :: NoticeKept(t, id, Notices(t.trace, id)))
    && (forall k | k in t.hands :: OnDisk(t, k.1, t.hands[k]))
    && (forall p | p in t.attempts :: Claimable(t, p))
    && (forall e | e in t.trace :: TypedWell(t, e))
  }

  /** What a pass has claimed, it has in hand with a recorded pointer. */
  predicate Claimable(t: Table, pass: Pass)
    requires pass in t.attempts
  {
    (pass, t.attempts[pass].id) in t.hands && t.hands[(pass, t.attempts[pass].id)].pointerState.Recorded?
  }

  /** No step loses a record, its body, or what its pointer state says was attempted. */
  ghost predicate RecordsKeep(t: Table, t': Table) {
    forall id | id in t.records ::
      && id in t'.records && SameBody(t.records[id], t'.records[id])
      && (t'.records[id].pointerState.NoPointer? ==> t.records[id].pointerState.NoPointer?)
  }

  lemma StepKeepsRecords(t: Table, step: Step, t': Table)
    requires Sound(t) && StepOf(t, step, t')
    ensures RecordsKeep(t, t')
  {
    hide Notices, Noted, TypedWell, NoticeKept;
    if step.Claim? {
      assert OnDisk(t, (step.pass, step.id).1, t.hands[(step.pass, step.id)]);
    } else if step.Settle? {
      var id := t.attempts[step.pass].id;
      assert Claimable(t, step.pass) && OnDisk(t, (step.pass, id).1, t.hands[(step.pass, id)]);
    }
  }

  lemma StepKeepsNotices(t: Table, step: Step, t': Table)
    requires Sound(t) && StepOf(t, step, t') && RecordsKeep(t, t')
    ensures forall id :: NoticeKept(t', id, Notices(t'.trace, id))
  {
    hide Notices, Recoveries, Legal, Lawful, Noted, MayRecover, BySenders, TypedWell, OnDisk, Claimable;
    if t'.trace != t.trace { Appended(t.trace, t'.trace[|t.trace|]); }
    forall id ensures NoticeKept(t', id, Notices(t'.trace, id)) {
      assert NoticeKept(t, id, Notices(t.trace, id));
    }
  }

  lemma StepKeepsHands(t: Table, step: Step, t': Table)
    requires Sound(t) && StepOf(t, step, t') && RecordsKeep(t, t')
    ensures forall k | k in t'.hands :: OnDisk(t', k.1, t'.hands[k])
    ensures forall p | p in t'.attempts :: Claimable(t', p)
  {
    hide Notices, NoticeKept, Noted, BySenders, TypedWell;
    forall k | k in t'.hands ensures OnDisk(t', k.1, t'.hands[k]) {
      if k in t.hands { assert OnDisk(t, k.1, t.hands[k]); }
    }
    forall p | p in t'.attempts ensures Claimable(t', p) {
      if p in t.attempts { assert Claimable(t, p); }
    }
  }

  lemma StepKeepsTyped(t: Table, step: Step, t': Table)
    requires Sound(t) && StepOf(t, step, t') && RecordsKeep(t, t')
    ensures forall e | e in t'.trace :: TypedWell(t', e)
  {
    hide Notices, NoticeKept, Noted, BySenders, ObservedBy;
    forall e | e in t'.trace ensures TypedWell(t', e) {
      if e in t.trace { assert TypedWell(t, e); }
      else if step.Claim? { assert OnDisk(t, (step.pass, step.id).1, t.hands[(step.pass, step.id)]); }
    }
  }

  lemma {:induction false} AlwaysSound(steps: seq<Step>, tables: seq<Table>)
    requires IsRun(steps, tables)
    ensures Sound(tables[|steps|])
    decreases |steps|
  {
    hide StepOf, RecordsKeep, NoticeKept, TypedWell, OnDisk, Claimable;
    if steps == [] {
      NothingYet();
    } else {
      var n := |steps| - 1;
      RunPrefix(steps, tables);
      AlwaysSound(steps[..n], tables[..n + 1]);
      var t, t' := tables[n], tables[n + 1];
      assert StepOf(t, steps[n], t');
      StepKeepsRecords(t, steps[n], t');
      StepKeepsNotices(t, steps[n], t');
      StepKeepsHands(t, steps[n], t');
      StepKeepsTyped(t, steps[n], t');
    }
  }

  lemma NothingYet()
    ensures Sound(START)
  {
  }

  /** However passes overlap: no record has two notices, and a text is typed again only with a recorded pointer,
      in the session it was typed in, and as it stands on disk. */
  lemma NoticedOnce(steps: seq<Step>, tables: seq<Table>)
    requires IsRun(steps, tables)
    ensures forall id :: Notices(tables[|steps|].trace, id) <= 1
    ensures forall e | e in tables[|steps|].trace :: TypedWell(tables[|steps|], e)
  {
    hide Notices, StepOf, TypedWell, OnDisk, Claimable;
    AlwaysSound(steps, tables);
    var t := tables[|steps|];
    forall id ensures Notices(t.trace, id) <= 1 { assert NoticeKept(t, id, Notices(t.trace, id)); }
  }

  // ---------- marking read ----------

  lemma ClaimedHandStep(t: Table, step: Step, t': Table, pass: Pass)
    requires StepOf(t, step, t') && pass in t.attempts && (pass, t.attempts[pass].id) in t.hands
    ensures pass in t'.attempts && t'.attempts[pass].id == t.attempts[pass].id
    ensures var k := (pass, t.attempts[pass].id); k in t'.hands && t'.hands[k] == t.hands[k]
    ensures t'.attempts[pass] == t.attempts[pass]
      || NextStage(t.attempts[pass].progress, t'.attempts[pass].progress, step, pass)
  {
    hide MayRecover, ObservedBy, BySenders;
  }

  /** The step that takes an attempt from one stage to the next. */
  predicate NextStage(from: Progress, to: Progress, step: Step, pass: Pass) {
    match to
    case Typing => false
    case Sent => from.Typing? && step == Submit(pass)
    case Stored => from.Sent? && step.Settle? && step.pass == pass && step.kept
    case Marked => from.Stored? && step == MarkRead(pass)
    case Stopped => from.Sent?
  }

  /** Where a pass claimed its record, sent it, and wrote it as delivered. */
  datatype Story = Story(claim: nat, submit: nat, settle: nat)

  predicate Tells(steps: seq<Step>, pass: Pass, attempt: Attempt, story: Story) {
    && Began(steps, story.claim, attempt.id) && steps[story.claim].pass == pass
    && (!attempt.progress.Typing? ==>
          story.claim < story.submit < |steps| && steps[story.submit] == Submit(pass))
    && (attempt.progress.Stored? || attempt.progress.Marked? ==>
          story.submit < story.settle < |steps| && steps[story.settle].Settle?
          && steps[story.settle].pass == pass && steps[story.settle].kept)
  }

  /** The claim wrote of this record in the trace. */
  predicate Recounts(tables: seq<Table>, steps: seq<Step>, claim: nat, r: Record) {
    && claim + 1 < |tables| && claim < |steps| && steps[claim].Claim?
    && tables[claim + 1].trace == tables[claim].trace + [Recovered(steps[claim].id, r, SightOf(steps[claim]))]
  }

  lemma ClaimRecounts(t: Table, step: Step, t': Table)
    requires StepOf(t, step, t') && step.Claim? && step.began
    ensures var k := (step.pass, step.id);
      k in t'.hands && t'.trace == t.trace + [Recovered(step.id, Claimed(t'.hands[k]), SightOf(step))]
  {
    hide MayRecover;
  }

  lemma NewAttempt(t: Table, step: Step, t': Table, pass: Pass)
    requires StepOf(t, step, t') && pass !in t.attempts && pass in t'.attempts && !t'.attempts[pass].progress.Stopped?
    ensures step.Claim? && step.began && step.pass == pass && t'.attempts[pass] == Attempt(step.id, Typing)
  {
    hide MayRecover, ObservedBy, BySenders;
  }

  lemma {:induction false} Told(steps: seq<Step>, tables: seq<Table>, pass: Pass) returns (story: Story)
    requires IsRun(steps, tables)
    requires pass in tables[|steps|].attempts && !tables[|steps|].attempts[pass].progress.Stopped?
    ensures var t := tables[|steps|]; var k := (pass, t.attempts[pass].id);
      && Tells(steps, pass, t.attempts[pass], story)
      && k in t.hands && Recounts(tables, steps, story.claim, Claimed(t.hands[k]))
    decreases |steps|
  {
    hide StepOf, Sound, Claimed;
    assert |steps| > 0;
    var n := |steps| - 1;
    var t, t' := tables[n], tables[n + 1];
    assert StepOf(t, steps[n], t');
    if pass in t.attempts {
      RunPrefix(steps, tables);
      AlwaysSound(steps[..n], tables[..n + 1]);
      HandOf(t, pass);
      ClaimedHandStep(t, steps[n], t', pass);
      story := Told(steps[..n], tables[..n + 1], pass);
      if t'.attempts[pass] != t.attempts[pass] {
        if t'.attempts[pass].progress.Sent? { story := story.(submit := n); }
        if t'.attempts[pass].progress.Stored? { story := story.(settle := n); }
      }
    } else {
      NewAttempt(t, steps[n], t', pass);
      ClaimRecounts(t, steps[n], t');
      story := Story(n, 0, 0);
    }
  }

  lemma HandOf(t: Table, pass: Pass)
    requires Sound(t) && pass in t.attempts
    ensures (pass, t.attempts[pass].id) in t.hands
  {
    assert Claimable(t, pass);
  }

  /** A pass that marks a pointer read has claimed the record before, has sent it without raising, has written it
      as delivered, and marks the pointer of the record that it claimed. */
  lemma {:induction false} MarkedAfterSubmission(steps: seq<Step>, tables: seq<Table>, k: nat)
      returns (story: Story, r: Record)
    requires IsRun(steps, tables) && k < |steps| && steps[k].MarkRead?
    ensures story.claim < story.submit < story.settle < k
    ensures steps[story.claim].Claim? && steps[story.claim].pass == steps[k].pass
    ensures steps[story.submit] == Submit(steps[k].pass)
    ensures steps[story.settle].Settle? && steps[story.settle].pass == steps[k].pass && steps[story.settle].kept
    ensures Recounts(tables, steps, story.claim, r) && r.pointer.Some?
    ensures tables[k + 1].trace == tables[k].trace + [MarkedRead(steps[story.claim].id, r.pointer.value)]
    decreases |steps|
  {
    hide StepOf;
    var n := |steps| - 1;
    RunPrefix(steps, tables);
    if k < n {
      story, r := MarkedAfterSubmission(steps[..n], tables[..n + 1], k);
    } else {
      assert StepOf(tables[n], steps[n], tables[n + 1]);
      MarksHand(tables[n], steps[n], tables[n + 1]);
      story := Told(steps[..n], tables[..n + 1], steps[n].pass);
      r := Claimed(tables[n].hands[(steps[n].pass, tables[n].attempts[steps[n].pass].id)]);
    }
  }

  lemma MarksHand(t: Table, step: Step, t': Table)
    requires StepOf(t, step, t') && step.MarkRead?
    ensures step.pass in t.attempts && t.attempts[step.pass].progress.Stored?
    ensures var k := (step.pass, t.attempts[step.pass].id);
      && k in t.hands && t.hands[k].pointer.Some?
      && t'.trace == t.trace + [MarkedRead(k.1, t.hands[k].pointer.value)]
  {
  }

  // ---------- it happens ----------

  const LOST := Record("t", Some(7), 0, Cleared, false, NoPointer, None)
  const NOTED := LOST.(pointer := Some(5), pointerState := Recorded)
  const EMPTY := Screen(None, {}, false, true)
  const TYPED := Recovered(0, Claimed(NOTED), Sight(Some(7), EMPTY, true))
  const TYPING := Attempt(0, Typing)

  const T1 := START.(records := map[0 := LOST])
  const T2 := Table(map[0 := NOTED], map[(1, 0) := NOTED], map[], [Noticed(0)])
  const T3 := T2.(hands := T2.hands[(2, 0) := NOTED])
  const T4 := T3.(records := map[0 := Claimed(NOTED)], attempts := map[1 := TYPING], trace := [Noticed(0)] + [TYPED])
  const T5 := T4.(attempts := map[1 := TYPING, 2 := TYPING], trace := [Noticed(0)] + [TYPED] + [TYPED])

  lemma BothLoad()
    ensures StepOf(START, Senders(map[0 := LOST]), T1)
    ensures StepOf(T1, Load(1, 0, [], true, NOTED, true, true), T2)
    ensures StepOf(T2, Load(2, 0, [Message(5, "", {0})], true, NOTED, true, false), T3)
  {
    assert T1.records[0 := NOTED] == T2.records && T1.trace + [Noticed(0)] == T2.trace;
    assert T2.records[0 := NOTED] == T2.records;
  }

  lemma FirstClaims()
    ensures StepOf(T3, Claim(1, 0, Some(7), EMPTY, true, true), T4)
  {
    assert T3.records[0 := Claimed(NOTED)] == T4.records;
  }

  lemma SecondClaims()
    ensures StepOf(T4, Claim(2, 0, Some(7), EMPTY, true, true), T5)
  {
    assert T4.records[0 := Claimed(NOTED)] == T4.records && T4.attempts[2 := TYPING] == T5.attempts;
  }

  /** A text cleared from the composer, two passes that load it before either claims it: both claim it. */
  lemma TwoPassesClaim() returns (steps: seq<Step>, tables: seq<Table>)
    ensures IsRun(steps, tables) && tables[|steps|].trace == [Noticed(0)] + [TYPED] + [TYPED]
  {
    hide StepOf;
    steps := [Senders(map[0 := LOST]), Load(1, 0, [], true, NOTED, true, true),
              Load(2, 0, [Message(5, "", {0})], true, NOTED, true, false),
              Claim(1, 0, Some(7), EMPTY, true, true), Claim(2, 0, Some(7), EMPTY, true, true)];
    tables := [START, T1, T2, T3, T4, T5];
    BothLoad();
    FirstClaims();
    SecondClaims();
  }

  /** So the text is typed twice. */
  lemma TwoPassesTypeTwice() returns (steps: seq<Step>, tables: seq<Table>)
    ensures IsRun(steps, tables) && Recoveries(tables[|steps|].trace, 0) == 2
  {
    hide Recoveries, Notices, Legal, Lawful, IsRun;
    steps, tables := TwoPassesClaim();
    NoRecoveries(0);
    assert [] + [Noticed(0)] == [Noticed(0)];
    Appended([], Noticed(0));
    Appended([Noticed(0)], TYPED);
    Appended([Noticed(0)] + [TYPED], TYPED);
  }
}
