/** `supervise` of shantytown/delivery.py: one tend pass over the records of a pane, one pass at a time. */
module DeliveryTend {
  import opened Basics
  import opened Delivery

  /** Messages about this record: its very text, or a body with its marker. */
  function About(messages: seq<Message>, id: Id, text: string): seq<Message> {
    if messages == [] then []
    else (if messages[0].body == text || id in messages[0].names then [messages[0]]
          else []) + About(messages[1..], id, text)
  }

  /** These are the messages with the very text of the record or with its marker, in order. */
  lemma {:induction false} AboutMeans(messages: seq<Message>, id: Id, text: string)
    ensures forall m :: m in About(messages, id, text) <==> m in messages && (m.body == text || id in m.names)
    ensures forall m: Message | m.body == text || id in m.names ::
      multiset(About(messages, id, text))[m] == multiset(messages)[m]
  {
    if messages != [] {
      AboutMeans(messages[1..], id, text);
      assert messages == [messages[0]] + messages[1..];
    }
  }

  /** What a pass writes about the inbox into one record when nothing raises. */
  predicate Noted(before: Record, after: Record, about: seq<Message>, readable: bool) {
    if |about| > 1 then after == before.(pointerState := Ambiguous)
    else if |about| == 1 then after == before.(pointer := Some(about[0].id), pointerState := Recorded)
    else if readable && before.pointerState.Recorded? then after == before || after == before.(state := Acknowledged)
    else if readable && before.pointerState.NoPointer? then
      after.pointerState.Recorded? && after.pointer.Some?
      && after == before.(pointer := after.pointer, pointerState := Recorded)
    else after == before
  }

  /** What one observation does to its record: pointer and state only, never back to no pointer, and what the
      inbox showed when it did not raise. A notice is sent for a record that had none, with something about it
      on disk by then. */
  predicate ObservedBy(before: Record, after: Record, about: seq<Message>, readable: bool, ok: bool, noticed: bool) {
    && after == before.(pointer := after.pointer, pointerState := after.pointerState, state := after.state)
    && (after.state == before.state || (after.state.Acknowledged? && before.pointerState.Recorded?))
    && (after.pointerState.NoPointer? ==> before.pointerState.NoPointer?)
    && (noticed ==> readable && about == [] && before.pointerState.NoPointer? && !after.pointerState.NoPointer?)
    && (ok ==> Noted(before, after, about, readable))
    && (ok && readable && about == [] && before.pointerState.NoPointer? ==> noticed)
  }

  /** The receipt the inbox's reader found for a pointer that is no longer unread. */
  datatype Receipt = Receipt(id: int, read: bool)

  /** A record in hand is the one on disk, up to its state. */
  predicate InHand(records: map<Id, Record>, id: Id, copy: Record) {
    id in records && records[id] == copy.(state := records[id].state)
  }

  predicate AllInHand(records: map<Id, Record>, pending: seq<(Id, Record)>) {
    forall k | 0 <= k < |pending| :: InHand(records, pending[k].0, pending[k].1)
  }

  lemma StillInHand(before: map<Id, Record>, after: map<Id, Record>, pending: seq<(Id, Record)>)
    requires AllInHand(before, pending) && BySenders(before, after)
    ensures AllInHand(after, pending)
  {
    forall k | 0 <= k < |pending| ensures InHand(after, pending[k].0, pending[k].1) {
      assert InHand(before, pending[k].0, pending[k].1);
    }
  }

  /** The first part of a pass for one record: at most one notice, its intent on disk beforehand.
      `kept` says the record goes on to the second part. */
  method Observe(c: Custody, id: Id, messages: seq<Message>, readable: bool)
      returns (ok: bool, kept: bool, readable': bool)
    requires c.Valid() && id in c.records
    modifies c`records, c`trace
    ensures c.Valid() && c.records.Keys == old(c.records).Keys
    ensures forall x | x in c.records && x != id :: c.records[x] == old(c.records)[x]
    ensures Closed(old(c.records)[id]) <==>
      old(c.records)[id].state == Delivered || old(c.records)[id].state == Acknowledged
    ensures Closed(old(c.records)[id]) ==> ok && !kept && c.records == old(c.records) && c.trace == old(c.trace)
    ensures c.trace == old(c.trace) || c.trace == old(c.trace) + [Noticed(id)]
    ensures !Closed(old(c.records)[id]) ==>
      ObservedBy(old(c.records)[id], c.records[id], About(messages, id, old(c.records)[id].text), readable, ok,
                 c.trace != old(c.trace))
    ensures ok ==> kept == !Closed(c.records[id]) && (readable' ==> readable)
  {
    hide Accounted, Legal, About;
    var record := c.records[id];
    if Closed(record) { return true, false, readable; }
    var about := About(messages, id, record.text);
    if |about| > 1 {
      record := record.(pointerState := Ambiguous);
      RewriteKeeps(c.records, id, record, c.trace);
      ok := c.Save(id, record);
      return ok, true, readable;
    }
    if |about| == 1 {
      record := record.(pointer := Some(about[0].id), pointerState := Recorded);
      RewriteKeeps(c.records, id, record, c.trace);
      ok := c.Save(id, record);
      return ok, true, readable;
    }
    if readable && record.pointerState.Recorded? {
      var raised: bool, receipt: Option<Receipt> := *, *;
      if raised { return true, true, false; }
      if receipt.Some? && Some(receipt.value.id) == record.pointer && receipt.value.read {
        record := record.(state := Acknowledged);
        RewriteKeeps(c.records, id, record, c.trace);
        ok := c.Save(id, record);
        return ok, false, readable;
      }
      return true, true, readable;
    }
    if readable && record.pointerState.NoPointer? {
      var attempting := record.(pointerState := Attempting);
      RewriteKeeps(c.records, id, attempting, c.trace);
      NoticeOnce(c.records, id, c.trace, attempting);
      ok := c.Save(id, attempting);
      if !ok { return false, true, readable; }
      c.trace := c.trace + [Noticed(id)];
      var raised: bool, item: int := *, *;
      if raised { return false, true, readable; }
      var recorded := attempting.(pointer := Some(item), pointerState := Recorded);
      RewriteKeeps(c.records, id, recorded, c.trace);
      ok := c.Save(id, recorded);
      return ok, true, readable;
    }
    return true, true, readable;
  }

  /** Whether this pass may type the record again: the guards, over the record in hand. */
  predicate MayRecover(record: Record, readable: bool, session: Option<int>, screen: Screen) {
    && readable && record.pointerState.Recorded? && !record.recoveryAttempted && record.session.Some?
    && session == record.session
    && !screen.midFlight && (screen.owned == Some(record.text) || (record.state.Cleared? && screen.empty))
  }

  /** A pass goes on with exactly the records nobody has tried again and that may be typed on what it sees. */
  lemma MayRecoverExactly(record: Record, readable: bool, session: Option<int>, screen: Screen)
    ensures MayRecover(record, readable, session, screen) <==>
      !record.recoveryAttempted && MayType(record, Sight(session, screen, readable))
  {
  }

  /** One recovery: the claim on disk, the send without the lock, and what became of it. */
  method Recover(c: Custody, id: Id, copy: Record, session: Option<int>, screen: Screen) returns (ok: bool)
    requires c.Valid() && InHand(c.records, id, copy) && MayRecover(copy, true, session, screen)
    modifies c
    ensures c.Valid() && old(c.trace) <= c.trace && old(c.records).Keys <= c.records.Keys
    ensures c.trace == old(c.trace) || RecoveredOnce(c.trace[|old(c.trace)|..], id, copy, Sight(session, screen, true))
    ensures ok ==> c.trace != old(c.trace)
    ensures c.trace != old(c.trace) ==> c.records[id].recoveryAttempted
  {
    hide Accounted, Legal, Lawful, BySenders, MayRecover, RecoveredOnce, InHand;
    ghost var before := c.records;
    c.Others();
    Hand(before, c.records, id, copy);
    Unclaimed(c.records, id, copy, session, screen);
    NotYetRecovered(c.records, id, c.trace);
    ghost var sight := Sight(session, screen, true);
    var claimed := copy.(recoveryAttempted := true);
    RewriteKeeps(c.records, id, claimed, c.trace);
    Claimed(c.records, id, claimed);
    ok := c.Save(id, claimed);
    if !ok { return false; }
    Guarded(c.trace, id, copy, claimed, session, screen);
    RecoverOnce(c.records, id, claimed, sight, c.trace);
    ghost var first := c.trace;
    c.trace := c.trace + [Recovered(id, claimed, sight)];
    ghost var events;
    ok, events := TypeAgain(c, id, claimed, sight);
    EventsOf(events, id, copy, sight);
    assert c.trace[|first|..] == [Recovered(id, claimed, sight)] + events;
  }

  /** The send of a claimed record, and what is written about it. */
  method TypeAgain(c: Custody, id: Id, claimed: Record, ghost sight: Sight)
      returns (ok: bool, ghost events: seq<Event>)
    requires c.Valid() && InHand(c.records, id, claimed) && claimed.recoveryAttempted
    requires c.trace != [] && c.trace[|c.trace| - 1] == Recovered(id, claimed, sight)
    modifies c
    ensures c.Valid() && c.trace == old(c.trace) + events && old(c.records).Keys <= c.records.Keys
    ensures c.records[id].recoveryAttempted
    ensures events == [] || events == [Submitted(id)]
      || (claimed.pointer.Some? && events == [Submitted(id), MarkedRead(id, claimed.pointer.value)])
  {
    hide Accounted, Legal, Lawful, BySenders, InHand;
    ghost var before := c.records;
    events := [];
    c.Others();
    Hand(before, c.records, id, claimed);
    var submitted: bool := *;
    if !submitted {
      before := c.records;
      ghost var pressed;
      ok, pressed := c.Failed(id);
      Hand(before, c.records, id, claimed);
      return true, events;
    }
    Answered(c.trace, id, claimed, sight);
    QuietEvent(c.records, c.trace, Submitted(id));
    events := [Submitted(id)];
    c.trace := c.trace + events;
    RewriteKeeps(c.records, id, claimed.(state := Delivered), c.trace);
    ok := c.Save(id, claimed.(state := Delivered));
    if ok && claimed.pointer.Some? {
      MayMark(c.trace, id, claimed, sight, claimed.pointer.value);
      QuietEvent(c.records, c.trace, MarkedRead(id, claimed.pointer.value));
      c.trace := c.trace + [MarkedRead(id, claimed.pointer.value)];
      events := events + [MarkedRead(id, claimed.pointer.value)];
      ok := *;
    }
  }

  lemma Unclaimed(records: map<Id, Record>, id: Id, copy: Record, session: Option<int>, screen: Screen)
    requires InHand(records, id, copy) && MayRecover(copy, true, session, screen)
    ensures !records[id].recoveryAttempted && !copy.pointerState.NoPointer?
  {
  }

  lemma Claimed(records: map<Id, Record>, id: Id, claimed: Record)
    requires id in records && claimed.recoveryAttempted
    ensures InHand(records[id := claimed], id, claimed)
  {
  }

  lemma EventsOf(events: seq<Event>, id: Id, copy: Record, sight: Sight)
    requires var claimed := copy.(recoveryAttempted := true);
      events == [] || events == [Submitted(id)]
      || (claimed.pointer.Some? && events == [Submitted(id), MarkedRead(id, claimed.pointer.value)])
    ensures RecoveredOnce([Recovered(id, copy.(recoveryAttempted := true), sight)] + events, id, copy, sight)
  {
  }

  /** The events of one recovery. */
  predicate RecoveredOnce(events: seq<Event>, id: Id, copy: Record, sight: Sight) {
    var claimed := copy.(recoveryAttempted := true);
    && 1 <= |events| <= 3 && events[0] == Recovered(id, claimed, sight)
    && (|events| >= 2 ==> events[1] == Submitted(id))
    && (|events| == 3 ==> claimed.pointer.Some? && events[2] == MarkedRead(id, claimed.pointer.value))
  }

  lemma Hand(before: map<Id, Record>, after: map<Id, Record>, id: Id, copy: Record)
    requires InHand(before, id, copy) && BySenders(before, after)
    ensures InHand(after, id, copy)
    ensures before.Keys <= after.Keys && id in after && after[id] == copy.(state := after[id].state)
  {
  }

  lemma Guarded(trace: seq<Event>, id: Id, copy: Record, claimed: Record, session: Option<int>, screen: Screen)
    requires MayRecover(copy, true, session, screen) && claimed == copy.(recoveryAttempted := true)
    ensures Lawful(trace, Recovered(id, claimed, Sight(session, screen, true)))
  {
  }

  lemma Answered(trace: seq<Event>, id: Id, claimed: Record, sight: Sight)
    requires trace != [] && trace[|trace| - 1] == Recovered(id, claimed, sight)
    ensures Lawful(trace, Submitted(id))
  {
  }

  lemma MayMark(trace: seq<Event>, id: Id, claimed: Record, sight: Sight, pointer: int)
    requires |trace| >= 2 && trace[|trace| - 1] == Submitted(id)
    requires trace[|trace| - 2] == Recovered(id, claimed, sight)
    requires claimed.pointer == Some(pointer)
    ensures Lawful(trace, MarkedRead(id, pointer))
  {
  }

  /** These events are notices of open records that had none, each once. */
  predicate FirstNotices(events: seq<Event>, records: map<Id, Record>) {
    forall k | 0 <= k < |events| ::
      events[k].Noticed? && events[k].id in records && records[events[k].id].pointerState.NoPointer?
      && !Closed(records[events[k].id])
  }

  /** At most one recovery, begun on this screen. */
  ghost predicate OneRecovery(events: seq<Event>, screen: Screen) {
    events == [] || exists id, copy, sight :: RecoveredOnce(events, id, copy, sight) && sight.screen == screen
  }

  /** `supervise`, up to the alert: every record observed under the lock, and then at most one recovered.
      `messages` is what the inbox showed, None when it could not be read. */
  method Tend(c: Custody, messages: Option<seq<Message>>, screen: Screen)
      returns (ok: bool, ghost notices: seq<Event>, ghost recovery: seq<Event>)
    requires c.Valid()
    modifies c
    ensures c.Valid() && old(c.records).Keys <= c.records.Keys
    ensures c.trace == old(c.trace) + notices + recovery
    ensures FirstNotices(notices, old(c.records)) && OneRecovery(recovery, screen)
    ensures messages.None? ==> notices == [] && recovery == []
  {
    hide Accounted, Legal, About, BySenders, Noted, MayRecover, RecoveredOnce;
    var readable := messages.Some?;
    var list := if readable then messages.value else [];
    var pending: seq<(Id, Record)> := [];
    notices, recovery := [], [];
    var todo := c.records.Keys;
    while todo != {}
      invariant c.Valid() && c.trace == old(c.trace) + notices && c.records.Keys == old(c.records).Keys
      invariant todo <= c.records.Keys && AllInHand(c.records, pending)
      invariant forall k | 0 <= k < |pending| :: pending[k].0 !in todo
      invariant forall id | id in todo :: c.records[id] == old(c.records)[id]
      invariant FirstNotices(notices, old(c.records)) && (messages.None? ==> notices == [] && !readable)
      decreases todo
    {
      var id :| id in todo;
      var kept: bool;
      ghost var sofar := c.trace;
      ok, kept, readable := Observe(c, id, list, readable);
      if c.trace != sofar { notices := notices + [Noticed(id)]; }
      if !ok { return; }
      if kept { pending := pending + [(id, c.records[id])]; }
      todo := todo - {id};
    }
    ghost var noticed := c.trace;
    for k := 0 to |pending|
      invariant c.Valid() && c.trace == noticed && old(c.records).Keys <= c.records.Keys
      invariant AllInHand(c.records, pending)
    {
      var late: bool, session: Option<int>, raised: bool := *, *, *;
      if late { break; }
      if raised { return false, notices, recovery; }
      var (id, copy) := pending[k];
      if MayRecover(copy, readable, session, screen) {
        assert InHand(c.records, id, copy);
        Readable(copy, readable, session, screen);
        ok := Recover(c, id, copy, session, screen);
        recovery := c.trace[|noticed|..];
        assert c.trace == noticed + recovery;
        if c.trace == noticed { assert recovery == []; }
        return;
      }
      ghost var before := c.records;
      c.Others();
      StillInHand(before, c.records, pending);
      HandKeys(before, c.records);
    }
    ok := true;
  }

  lemma Readable(copy: Record, readable: bool, session: Option<int>, screen: Screen)
    requires MayRecover(copy, readable, session, screen)
    ensures MayRecover(copy, true, session, screen) && readable
  {
  }

  lemma HandKeys(before: map<Id, Record>, after: map<Id, Record>)
    requires BySenders(before, after)
    ensures before.Keys <= after.Keys
  {
  }

  // ---------- over any number of passes ----------

  lemma {:induction false} CountsNotice(trace: seq<Event>, i: nat, id: Id)
    requires i < |trace| && trace[i] == Noticed(id)
    ensures Notices(trace, id) >= 1
    decreases |trace|
  {
    if i < |trace| - 1 { CountsNotice(trace[..|trace| - 1], i, id); }
  }

  lemma {:induction false} CountsTwoNotices(trace: seq<Event>, i: nat, j: nat, id: Id)
    requires i < j < |trace| && trace[i] == Noticed(id) == trace[j]
    ensures Notices(trace, id) >= 2
    decreases |trace|
  {
    var before := trace[..|trace| - 1];
    if j < |trace| - 1 { CountsTwoNotices(before, i, j, id); } else { CountsNotice(before, i, id); }
  }

  lemma {:induction false} CountsRecovery(trace: seq<Event>, i: nat, id: Id)
    requires i < |trace| && trace[i].Recovered? && trace[i].id == id
    ensures Recoveries(trace, id) >= 1
    decreases |trace|
  {
    if i < |trace| - 1 { CountsRecovery(trace[..|trace| - 1], i, id); }
  }

  lemma {:induction false} CountsTwoRecoveries(trace: seq<Event>, i: nat, j: nat, id: Id)
    requires i < j < |trace| && trace[i].Recovered? && trace[j].Recovered? && trace[i].id == id == trace[j].id
    ensures Recoveries(trace, id) >= 2
    decreases |trace|
  {
    var before := trace[..|trace| - 1];
    if j < |trace| - 1 { CountsTwoRecoveries(before, i, j, id); } else { CountsRecovery(before, i, id); }
  }

  /** Whatever passes, senders and crashes came before: one notice and one recovery a record, a recovery only
      with a recorded pointer in the session the text was typed in, and a pointer marked read only after its
      record's submission did not raise. */
  lemma OnceEach(records: map<Id, Record>, trace: seq<Event>)
    requires Accounted(records, trace) && Legal(trace)
    ensures forall i, j | 0 <= i < j < |trace| :: trace[i].Noticed? && trace[j].Noticed? ==> trace[i].id != trace[j].id
    ensures forall i, j | 0 <= i < j < |trace| ::
      trace[i].Recovered? && trace[j].Recovered? ==> trace[i].id != trace[j].id
    ensures forall i | 0 <= i < |trace| && trace[i].Recovered? ::
      MayType(trace[i].record, trace[i].sight)
    ensures forall i | 0 <= i < |trace| && trace[i].MarkedRead? ::
      i >= 2 && trace[i - 1] == Submitted(trace[i].id) && trace[i - 2].Recovered? && trace[i - 2].id == trace[i].id
  {
    hide Notices, Recoveries;
    forall i, j | 0 <= i < j < |trace| ensures trace[i].Noticed? && trace[j].Noticed? ==> trace[i].id != trace[j].id {
      assert AccountedOne(records, trace[i].id, Notices(trace, trace[i].id), Recoveries(trace, trace[i].id));
      if trace[i].Noticed? && trace[i] == trace[j] { CountsTwoNotices(trace, i, j, trace[i].id); }
    }
    forall i, j | 0 <= i < j < |trace|
      ensures trace[i].Recovered? && trace[j].Recovered? ==> trace[i].id != trace[j].id {
      assert AccountedOne(records, trace[i].id, Notices(trace, trace[i].id), Recoveries(trace, trace[i].id));
      if trace[i].Recovered? && trace[j].Recovered? && trace[i].id == trace[j].id {
        CountsTwoRecoveries(trace, i, j, trace[i].id);
      }
    }
    forall i | 0 <= i < |trace| && trace[i].MarkedRead?
      ensures i >= 2 && trace[i - 1] == Submitted(trace[i].id) && trace[i - 2].Recovered?
      ensures trace[i - 2].id == trace[i].id
    {
      assert Lawful(trace[..i], trace[i]);
    }
    forall i | 0 <= i < |trace| && trace[i].Recovered?
      ensures MayType(trace[i].record, trace[i].sight)
    {
      assert Lawful(trace[..i], trace[i]);
    }
  }
}
