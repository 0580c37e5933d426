/** Nobody waits for ever in the queue of shantytown/admin_inbox.py: a bound over any run of sweeps and enqueues. */
module AdminWaiting {
  import opened Basics
  import opened AdminInbox
  import opened AdminQueue

  datatype Call =
    | Sweeping(ok: bool, cards: map<string, Card>, now: int, visited: Visits, events: seq<Event>)
    | Enqueueing(key: Key, row: Row)

  /** What one call does to the files, as the contracts of `Sweep` and `Enqueue` say. */
  ghost predicate StepOf(call: Call, before: map<Key, Row>, after: map<Key, Row>) {
    match call
    case Sweeping(ok, cards, now, visited, events) =>
      Swept(before, after, events) && (ok ==> SweptWell(before, after, cards, now, visited, events))
    case Enqueueing(key, row) => EnqueueStep(before, after, key, row)
  }

  ghost predicate IsRun(calls: seq<Call>, queues: seq<map<Key, Row>>) {
    |queues| == |calls| + 1 && forall i | 0 <= i < |calls| :: StepOf(calls[i], queues[i], queues[i + 1])
  }

  /** A sweep that does not raise, finds the row due and its recipient the same, the pane there and the inbox
      readable, and the message unread with the queued body. */
  predicate Serves(call: Call, e: Entry) {
    && call.Sweeping? && call.ok && MustRelease(e.row, e.key, call.cards, call.now)
    && GroupOf(e) in call.visited && call.visited[GroupOf(e)].Some?
    && Deliverable(e, call.visited[GroupOf(e)].value.unread)
  }

  function Servings(calls: seq<Call>, e: Entry): nat {
    if calls == [] then 0 else (if Serves(calls[0], e) then 1 else 0) + Servings(calls[1..], e)
  }

  /** The pending rows of the same recipient and backend that are older. */
  function Rivals(rows: map<Key, Row>, e: Entry): set<Key> {
    set k | k in rows && GroupOf(Entry(k, rows[k])) == GroupOf(e) && !rows[k].attempted && Older(Entry(k, rows[k]), e)
  }

  /** Nothing enqueued on the way is older. */
  ghost predicate NothingOlder(calls: seq<Call>, e: Entry) {
    forall i | 0 <= i < |calls| && calls[i].Enqueueing? ::
      GroupOf(Entry(calls[i].key, calls[i].row)) == GroupOf(e) ==> !Older(Entry(calls[i].key, calls[i].row), e)
  }

  /** This call sent a batch with the row in it. */
  ghost predicate SentLive(call: Call, e: Entry) {
    call.Sweeping? && exists x | x in call.events :: x.Sent? && e in x.entries
  }

  /** This call marked the row attempted on disk, or sent it well and removed it. */
  ghost predicate Handled(call: Call, after: map<Key, Row>, e: Entry) {
    if e.key in after then after[e.key].attempted else call.Sweeping? && SentWell(call.events, e)
  }

  lemma {:induction false} KeysOf(entries: seq<Entry>)
    requires Distinct(entries)
    ensures |Keys(entries)| == |entries|
  {
    if entries != [] {
      var n := |entries| - 1;
      KeysOf(entries[..n]);
      LastIsNew(entries);
    }
  }

  lemma LastIsNew(entries: seq<Entry>)
    requires Distinct(entries) && entries != []
    ensures Keys(entries) == Keys(entries[..|entries| - 1]) + {entries[|entries| - 1].key}
    ensures entries[|entries| - 1].key !in Keys(entries[..|entries| - 1])
  {
    var n := |entries| - 1;
    assert entries == entries[..n] + [entries[n]];
    KeysAppend(entries[..n], entries[n]);
    forall x | x in entries[..n] ensures x.key != entries[n].key {
      var i :| 0 <= i < n && entries[..n][i] == x;
      assert entries[i] == x;
    }
  }

  /** What stands before an entry of a round is older and was pending. */
  lemma BeforeInRound(round: Round, before: map<Key, Row>, after: map<Key, Row>, e: Entry, x: Entry)
    requires RoundOf(round, GroupOf(e), before, after) && e in round.entries
    requires x in round.entries[..IndexOf(round.entries, e)]
    ensures x.key in Rivals(before, e)
  {
    hide TextOrder.Less;
    var i := IndexOf(round.entries, e);
    var k :| 0 <= k < i && round.entries[k] == x;
    assert x in round.entries && Fresh(before, x) && GroupOf(x) == GroupOf(e);
    assert !Older(e, x);
    OlderIsTotal(x, e);
  }

  /** A sweep that serves a row sends a batch with it live, after which it is on disk as attempted or gone by a
      good send; or else it picks a whole batch of older rows. */
  lemma PickedOrFewer(call: Call, before: map<Key, Row>, after: map<Key, Row>, e: Entry)
    requires Fresh(before, e) && Serves(call, e) && StepOf(call, before, after)
    ensures (Handled(call, after, e) && SentLive(call, e)) || |Rivals(after, e)| + 20 <= |Rivals(before, e)|
  {
    hide Pick, Deliverable, Older, MustRelease, SentWell;
    var round := call.visited[GroupOf(e)].value;
    assert Stands(call.visited, Entry(e.key, before[e.key]));
    assert RoundOf(round, GroupOf(e), before, after);
    if e in Picked(round) {
      assert WasSent(call.events, Picked(round));
      assert AttemptedOrGone(after, e.key);
    } else {
      PickedOrFull(round.entries, round.unread, BATCH, IndexOf(round.entries, e));
      PickDistinct(round.entries, round.unread, BATCH);
      KeysOf(Picked(round));
      forall k | k in Keys(Picked(round)) ensures k in Rivals(before, e) && AttemptedOrGone(after, k) {
        var x :| x in Picked(round) && x.key == k;
        BeforeInRound(round, before, after, e, x);
      }
      StillRivals(before, after, e);
      FewerRivals(Rivals(before, e), Rivals(after, e), Keys(Picked(round)));
    }
  }

  lemma StillRivals(before: map<Key, Row>, after: map<Key, Row>, e: Entry)
    requires Onward(before, after)
    ensures Rivals(after, e) <= Rivals(before, e)
    ensures forall k | AttemptedOrGone(after, k) :: k !in Rivals(after, e)
  {
    hide Older;
  }

  lemma FewerRivals(before: set<Key>, after: set<Key>, picked: set<Key>)
    requires after <= before - picked && picked <= before
    ensures |after| + |picked| <= |before|
  {
    assert before == (before - picked) + picked;
    assert before - picked == after + (before - picked - after);
  }

  /** No call brings a rival or changes a pending row otherwise than by attempting it. */
  lemma StepKeeps(call: Call, before: map<Key, Row>, after: map<Key, Row>, e: Entry)
    requires Fresh(before, e) && StepOf(call, before, after)
    requires call.Enqueueing? && GroupOf(Entry(call.key, call.row)) == GroupOf(e) ==>
      !Older(Entry(call.key, call.row), e)
    ensures Rivals(after, e) <= Rivals(before, e)
    ensures Handled(call, after, e) || Fresh(after, e)
  {
    hide Older, SentWell;
    if call.Sweeping? { StillRivals(before, after, e); }
  }

  lemma Subset(a: set<Key>, b: set<Key>)
    requires a <= b
    ensures |a| <= |b|
  {
    assert b == a + (b - a);
  }

  /** However sweeps and enqueues alternate, and whatever else sweeps meet: by the time r / 20 + 1 sweeps have
      served a pending row with r older ones in its group, some call has put it on disk as attempted, or has sent
      it well and removed it. */
  lemma {:induction false} AttemptedInTime(calls: seq<Call>, queues: seq<map<Key, Row>>, e: Entry) returns (t: nat)
    requires IsRun(calls, queues) && Fresh(queues[0], e) && NothingOlder(calls, e)
    requires Servings(calls, e) >= |Rivals(queues[0], e)| / 20 + 1
    ensures 0 < t < |queues| && Fresh(queues[t - 1], e) && Handled(calls[t - 1], queues[t], e)
    decreases |calls|
  {
    hide Serves, Rivals, Older, StepOf, Handled, SentLive, Fresh;
    assert StepOf(calls[0], queues[0], queues[1]);
    StepKeeps(calls[0], queues[0], queues[1], e);
    if Handled(calls[0], queues[1], e) { return 1; }
    Subset(Rivals(queues[1], e), Rivals(queues[0], e));
    if Serves(calls[0], e) { PickedOrFewer(calls[0], queues[0], queues[1], e); }
    var rest, after := calls[1..], queues[1..];
    assert forall i | 0 <= i < |rest| :: rest[i] == calls[i + 1];
    assert forall i | 0 <= i < |after| :: after[i] == queues[i + 1];
    var t' := AttemptedInTime(rest, after, e);
    t := t' + 1;
  }
}
