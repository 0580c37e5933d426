/**
 Custody of text typed into a composer: shantytown/delivery.py. A record outlives the sender that
 made it; a tend pass gives it one inbox notice and at most one recovery, and never takes the lock
 away from senders while it types.
 */
module Delivery {
  import opened Basics

  type Id = nat

  datatype State = Prepared | Unknown | Queued | Cleared | Delivered | Acknowledged

  datatype PointerState = NoPointer | Attempting | Recorded | Ambiguous

  datatype Record = Record(text: string, session: Option<int>, created: int, state: State,
                           recoveryAttempted: bool, pointerState: PointerState, pointer: Option<int>)

  /** An inbox message; `names` are the records whose marker stands in its body. */
  datatype Message = Message(id: int, body: string, names: set<Id>)

  /** What a capture of the composer shows. */
  datatype Screen = Screen(owned: Option<string>, queued: set<string>, midFlight: bool, empty: bool)

  /** What a pass sees before it types: the pane's session, its composer, and whether the inbox could be read. */
  datatype Sight = Sight(session: Option<int>, screen: Screen, readable: bool)

  datatype Event =
    | Noticed(id: Id)                                                    // box.deliver called
    | Recovered(id: Id, record: Record, sight: Sight)                    // a recovery send begun, on this sight
    | Submitted(id: Id)                                                  // it did not raise
    | MarkedRead(id: Id, pointer: int)

  /** A key pressed by a sender that clears its own text, and what it saw just before. */
  datatype Press = Press(screen: Screen, codex: bool, session: Option<int>)

  /** The composer held exactly this record's text, idle, in a confirmed runtime and the same session. */
  predicate Proper(p: Press, r: Record) {
    p.screen.owned == Some(r.text) && !p.screen.midFlight && p.codex && p.session == r.session
  }

  predicate Closed(r: Record) {
    r.state.Delivered? || r.state.Acknowledged?
  }

  // ---------- histories ----------

  function Notices(trace: seq<Event>, id: Id): nat {
    if trace == [] then 0
    else Notices(trace[..|trace| - 1], id) + (if trace[|trace| - 1] == Noticed(id) then 1 else 0)
  }

  function Recoveries(trace: seq<Event>, id: Id): nat {
    if trace == [] then 0
    else
      var e := trace[|trace| - 1];
      Recoveries(trace[..|trace| - 1], id) + (if e.Recovered? && e.id == id then 1 else 0)
  }

  predicate MayType(r: Record, sight: Sight) {
    && sight.readable && r.pointerState.Recorded? && r.session.Some? && r.session == sight.session
    && !sight.screen.midFlight
    && (sight.screen.owned == Some(r.text) || (r.state == Cleared && sight.screen.empty))
  }

  /** A recovery needs a readable inbox, a recorded pointer, the session the text was typed in, and an idle
      composer that holds exactly the text, or is empty after the text was cleared; a pointer is marked read only
      right after a submission of its record that did not raise. */
  predicate Lawful(before: seq<Event>, e: Event) {
    match e
    case Noticed(_) => true
    case Recovered(_, record, sight) => MayType(record, sight)
    case Submitted(id) => before != [] && before[|before| - 1].Recovered? && before[|before| - 1].id == id
    case MarkedRead(id, pointer) =>
      |before| >= 2 && before[|before| - 1] == Submitted(id)
      && before[|before| - 2].Recovered? && before[|before| - 2].id == id
      && before[|before| - 2].record.pointer == Some(pointer)
  }

  ghost predicate Legal(trace: seq<Event>) {
    forall j | 0 <= j < |trace| :: Lawful(trace[..j], trace[j])
  }

  /** At most one notice and one recovery each, and the record on disk knows of them. */
  ghost predicate Accounted(records: map<Id, Record>, trace: seq<Event>) {
    forall id :: AccountedOne(records, id, Notices(trace, id), Recoveries(trace, id))
  }

  predicate AccountedOne(records: map<Id, Record>, id: Id, notices: nat, recoveries: nat) {
    && notices <= 1 && recoveries <= 1
    && (notices == 1 ==> id in records && !records[id].pointerState.NoPointer?)
    && (recoveries == 1 ==> id in records && records[id].recoveryAttempted)
  }

  lemma Appended(trace: seq<Event>, e: Event)
    ensures forall id :: Notices(trace + [e], id) == Notices(trace, id) + (if e == Noticed(id) then 1 else 0)
    ensures forall id ::
      Recoveries(trace + [e], id) == Recoveries(trace, id) + (if e.Recovered? && e.id == id then 1 else 0)
    ensures Legal(trace) && Lawful(trace, e) ==> Legal(trace + [e])
  {
    hide Lawful;
    var all := trace + [e];
    assert all[..|trace|] == trace;
    if Legal(trace) && Lawful(trace, e) {
      forall j | 0 <= j < |all| ensures Lawful(all[..j], all[j]) {
        assert all[..j] == trace[..j];
        assert j < |trace| ==> all[j] == trace[j];
      }
    }
  }

  // ---------- what may happen to records ----------

  /** What senders do: change states, and add records nobody has noticed or recovered. */
  ghost predicate BySenders(before: map<Id, Record>, after: map<Id, Record>) {
    && before.Keys <= after.Keys
    && (forall id | id in before :: after[id] == before[id].(state := after[id].state))
    && (forall id | id in after && id !in before :: after[id].pointerState.NoPointer? && !after[id].recoveryAttempted)
  }

  lemma SendersKeep(before: map<Id, Record>, after: map<Id, Record>, trace: seq<Event>)
    requires BySenders(before, after) && Accounted(before, trace)
    ensures Accounted(after, trace)
  {
    hide Notices, Recoveries;
    forall id ensures AccountedOne(after, id, Notices(trace, id), Recoveries(trace, id)) {
      assert AccountedOne(before, id, Notices(trace, id), Recoveries(trace, id));
    }
  }

  /** One record is rewritten, forgetting neither its pointer nor its recovery. */
  lemma RewriteKeeps(records: map<Id, Record>, id: Id, r: Record, trace: seq<Event>)
    requires Accounted(records, trace) && id in records
    requires !records[id].pointerState.NoPointer? ==> !r.pointerState.NoPointer?
    requires records[id].recoveryAttempted ==> r.recoveryAttempted
    ensures Accounted(records[id := r], trace)
  {
    hide Notices, Recoveries;
    forall x ensures AccountedOne(records[id := r], x, Notices(trace, x), Recoveries(trace, x)) {
      assert AccountedOne(records, x, Notices(trace, x), Recoveries(trace, x));
    }
  }

  lemma NoticeOnce(records: map<Id, Record>, id: Id, trace: seq<Event>, r: Record)
    requires Accounted(records, trace) && Legal(trace) && id in records && records[id].pointerState.NoPointer?
    requires r == records[id].(pointerState := Attempting)
    ensures Accounted(records[id := r], trace + [Noticed(id)]) && Legal(trace + [Noticed(id)])
  {
    hide Notices, Recoveries, Legal;
    Appended(trace, Noticed(id));
    var records' := records[id := r];
    forall x ensures AccountedOne(records', x, Notices(trace + [Noticed(id)], x),
                                  Recoveries(trace + [Noticed(id)], x)) {
      assert AccountedOne(records, x, Notices(trace, x), Recoveries(trace, x));
    }
  }

  lemma RecoverOnce(records: map<Id, Record>, id: Id, r: Record, sight: Sight, trace: seq<Event>)
    requires Accounted(records, trace) && Legal(trace) && id in records && records[id].recoveryAttempted
    requires Recoveries(trace, id) == 0 && Lawful(trace, Recovered(id, r, sight))
    ensures var trace' := trace + [Recovered(id, r, sight)]; Accounted(records, trace') && Legal(trace')
  {
    hide Notices, Recoveries, Legal, Lawful;
    var e := Recovered(id, r, sight);
    Appended(trace, e);
    forall x ensures AccountedOne(records, x, Notices(trace + [e], x), Recoveries(trace + [e], x)) {
      assert AccountedOne(records, x, Notices(trace, x), Recoveries(trace, x));
    }
  }

  lemma QuietEvent(records: map<Id, Record>, trace: seq<Event>, e: Event)
    requires Accounted(records, trace) && Legal(trace) && (e.Submitted? || e.MarkedRead?) && Lawful(trace, e)
    ensures Accounted(records, trace + [e]) && Legal(trace + [e])
  {
    hide Notices, Recoveries, Legal, Lawful;
    Appended(trace, e);
    forall x ensures AccountedOne(records, x, Notices(trace + [e], x), Recoveries(trace + [e], x)) {
      assert AccountedOne(records, x, Notices(trace, x), Recoveries(trace, x));
    }
  }

  lemma NotYetRecovered(records: map<Id, Record>, id: Id, trace: seq<Event>)
    requires Accounted(records, trace) && id in records && !records[id].recoveryAttempted
    ensures Recoveries(trace, id) == 0
  {
    hide Notices, Recoveries;
    assert AccountedOne(records, id, Notices(trace, id), Recoveries(trace, id));
  }

  /** The records a retry of this text in this session may go on with. */
  function OpenFor(records: map<Id, Record>, text: string, session: Option<int>): set<Id> {
    set id | id in records && records[id].text == text && records[id].session == session && !Closed(records[id])
  }

  /** Failed sends of this session whose text the composer shows. */
  function Stranded(records: map<Id, Record>, screen: Screen, session: Option<int>): set<Id> {
    set id | id in records && records[id].state.Unknown? && records[id].session.Some? && records[id].session == session
             && screen.owned == Some(records[id].text)
  }

  // ---------- one pane ----------

  /** The custody files of one pane, its composer, and the inbox of the agent in it. Writing a record
      may raise, with the file written or not; so may everything asked of the pane or the inbox. */
  class Custody {
    var records: map<Id, Record>
    var next: Id
    ghost var trace: seq<Event>

    constructor ()
      ensures Valid() && records == map[] && trace == []
    {
      records, next, trace := map[], 0, [];
    }

    ghost predicate Valid() reads this {
      Accounted(records, trace) && Legal(trace) && forall id | id in records :: id < next
    }

    method Save(id: Id, r: Record) returns (ok: bool)
      modifies this`records
      ensures ok ==> records == old(records)[id := r]
      ensures records == old(records) || records == old(records)[id := r]
    {
      var kept: bool := *;
      if !kept { return false; }
      records := records[id := r];
      ok := *;
    }

    // ----- senders, each holding the lock -----

    /** `begin`: a retry goes on with the open record, its first timestamp, its pointer and its recovery;
        two of them are refused. */
    method Begin(text: string, session: Option<int>, now: int) returns (record: Option<Id>)
      requires Valid()
      modifies this`records, this`next
      ensures Valid() && BySenders(old(records), records)
      ensures |OpenFor(old(records), text, session)| > 1 ==> record.None? && records == old(records)
      ensures record.Some? ==> OpenFor(old(records), text, session) <= {record.value} && record.value in records
      ensures record.Some? && record.value in old(records) ==>
        record.value in OpenFor(old(records), text, session)
        && records == old(records)[record.value := old(records)[record.value].(state := Prepared)]
      // the text and session are the record's, and it is neither delivered nor acknowledged; no other such record
      ensures record.Some? && record.value in old(records) ==>
        old(records)[record.value].text == text && old(records)[record.value].session == session
        && old(records)[record.value].state != Delivered && old(records)[record.value].state != Acknowledged
      ensures record.Some? ==> forall x | x in old(records) && x != record.value
        && old(records)[x].text == text && old(records)[x].session == session ::
          old(records)[x].state == Delivered || old(records)[x].state == Acknowledged
      ensures record.Some? && record.value !in old(records) ==>
        records == old(records)[record.value := Record(text, session, now, Prepared, false, NoPointer, None)]
    {
      hide Accounted, Legal;
      var matches := OpenFor(records, text, session);
      if |matches| > 1 { return None; }
      assert forall x | x in records && records[x].text == text && records[x].session == session && x !in matches ::
        records[x].state == Delivered || records[x].state == Acknowledged;
      var id := next;
      var r := Record(text, session, now, Prepared, false, NoPointer, None);
      Singleton(matches);
      if matches != {} {
        id :| id in matches;
        r := records[id].(state := Prepared);
      } else {
        next := next + 1;
      }
      var ok := Save(id, r);
      SendersKeep(old(records), records, trace);
      return if ok then Some(id) else None;
    }

    /** `finish`. */
    method Finish(id: Id, state: State) returns (ok: bool)
      requires Valid() && id in records
      modifies this`records
      ensures Valid() && BySenders(old(records), records)
      ensures ok ==> records == old(records)[id := old(records)[id].(state := state)]
      ensures records == old(records) || records == old(records)[id := old(records)[id].(state := state)]
    {
      hide Accounted, Legal;
      ok := Save(id, records[id].(state := state));
      SendersKeep(old(records), records, trace);
    }

    /** `failed`: unknown, then queued when the pane says so, and cleared only when two keys, each pressed on
        a composer that still held exactly this text in this session, left it empty. */
    method Failed(id: Id) returns (ok: bool, ghost pressed: seq<Press>)
      requires Valid() && id in records
      modifies this`records
      ensures Valid() && BySenders(old(records), records)
      ensures forall x | x in old(records) && x != id :: records[x] == old(records)[x]
      ensures forall k | 0 <= k < |pressed| :: Proper(pressed[k], old(records)[id])
      ensures |pressed| <= 2 && (pressed != [] ==> old(records)[id].session.Some? && '\n' !in old(records)[id].text)
      ensures records[id].state.Cleared? && !old(records)[id].state.Cleared? ==> |pressed| == 2
      ensures ok && |pressed| < 2 ==> !records[id].state.Cleared?
    {
      hide Accounted, Legal;
      pressed := [];
      var record := records[id];
      ok := Finish(id, Unknown);
      if !ok { return; }
      ghost var marked := records;
      var screen: Screen, shown: bool := *, *;
      if !shown { return false, pressed; }
      if record.text in screen.queued {
        ok := Finish(id, Queued);
        BySendersTwice(old(records), marked, records);
        return;
      }
      if record.session.None? || '\n' in record.text || screen.midFlight { return true, pressed; }
      for i := 0 to 2
        invariant records == marked && |pressed| == i
        invariant forall k | 0 <= k < |pressed| :: Proper(pressed[k], record)
      {
        var codex: bool, session: Option<int> := *, *;
        screen, shown := *, *;
        if !shown { return false, pressed; }
        if screen.owned != Some(record.text) || screen.midFlight || !codex || session != record.session {
          return true, pressed;
        }
        pressed := pressed + [Press(screen, codex, session)];
      }
      screen, shown := *, *;
      if !shown { return false, pressed; }
      if screen.empty {
        ok := Finish(id, Cleared);
        BySendersTwice(old(records), marked, records);
      }
    }

    /** `clear_previous`: a sender that finds the composer occupied may clear the one failed send whose text it
        shows. */
    method ClearPrevious(screen: Screen, session: Option<int>)
        returns (ok: bool, cleared: bool, ghost pressed: seq<Press>)
      requires Valid()
      modifies this`records
      ensures Valid() && BySenders(old(records), records)
      ensures |Stranded(old(records), screen, session)| != 1 ==>
        ok && !cleared && records == old(records) && pressed == []
      ensures forall x | x in old(records) && x !in Stranded(old(records), screen, session) ::
        records[x] == old(records)[x]
      // the one it touches was left unknown, in this session, and its text is what the composer shows
      ensures forall x | x in old(records) && records[x] != old(records)[x] ::
        old(records)[x].state == Unknown && old(records)[x].session.Some? && old(records)[x].session == session
        && screen.owned == Some(old(records)[x].text)
      ensures cleared ==> |pressed| == 2
      ensures cleared ==>
        exists id | id in Stranded(old(records), screen, session) :: records[id] == old(records)[id].(state := Cleared)
      ensures forall k, id | 0 <= k < |pressed| && id in Stranded(old(records), screen, session) ::
        Proper(pressed[k], old(records)[id])
    {
      hide Accounted, Legal;
      pressed := [];
      var stranded := Stranded(records, screen, session);
      SameBySenders(records);
      if |stranded| != 1 { return true, false, pressed; }
      Singleton(stranded);
      var id :| id in stranded;
      ok, pressed := Failed(id);
      cleared := ok && records[id].state.Cleared?;
    }

    /** Any number of senders, while a tend pass does not hold the lock. */
    method Others()
      requires Valid()
      modifies this`records, this`next
      ensures Valid() && BySenders(old(records), records)
    {
      hide Accounted, Legal, BySenders;
      SameBySenders(records);
      var n: int := *;
      for i := 0 to if n < 0 then 0 else n
        invariant Valid() && BySenders(old(records), records)
      {
        ghost var before := records;
        var text: string, session: Option<int>, now: int := *, *, *;
        var occupied: bool, screen: Screen := *, *;
        if occupied {
          var ok, cleared;
          ghost var pressed;
          ok, cleared, pressed := ClearPrevious(screen, session);
          BySendersTwice(old(records), before, records);
          before := records;
        }
        var record := Begin(text, session, now);
        BySendersTwice(old(records), before, records);
        if record.Some? {
          before := records;
          var raised: bool := *;
          if raised {
            var ok;
            ghost var pressed;
            ok, pressed := Failed(record.value);
          } else {
            var ok := Finish(record.value, Delivered);
          }
          BySendersTwice(old(records), before, records);
        }
      }
    }
  }

  lemma SameBySenders(records: map<Id, Record>)
    ensures BySenders(records, records)
  {
  }

  lemma BySendersTwice(a: map<Id, Record>, b: map<Id, Record>, c: map<Id, Record>)
    requires BySenders(a, b) && BySenders(b, c)
    ensures BySenders(a, c)
  {
  }

  lemma Singleton(ids: set<Id>)
    ensures |ids| <= 1 ==> forall a, b | a in ids && b in ids :: a == b
    ensures |ids| > 1 ==> exists a, b :: a in ids && b in ids && a != b
  {
    if ids != {} {
      var a :| a in ids;
      var rest := ids - {a};
      if rest != {} { var b :| b in rest; assert |rest| >= 1; }
    }
  }
}
