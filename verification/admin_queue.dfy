/** `enqueue` and `sweep` of shantytown/admin_inbox.py, over the files of the queue. */
module AdminQueue {
  import opened Basics
  import opened Sorting
  import opened AdminInbox
  import TextOrder

  datatype Event =
    | Enqueued(key: Key)
    | Sent(entries: seq<Entry>, good: bool)        // one live send; not good when it raised or stayed in the composer
    | Acked(ids: seq<string>, good: bool)

  // ---------- histories ----------

  function Keys(entries: seq<Entry>): set<Key> {
    set e | e in entries :: e.key
  }

  /** The row under this key was put there since the last live send that held it. */
  function Live(trace: seq<Event>, key: Key): bool {
    if trace == [] then false
    else
      LiveAfter(Live(trace[..|trace| - 1], key), trace[|trace| - 1], key)
  }

  function LiveAfter(before: bool, e: Event, key: Key): bool {
    match e
    case Enqueued(k) => k == key || before
    case Sent(entries, _) => before && key !in Keys(entries)
    case Acked(_, _) => before
  }

  function NotRetained(entries: seq<Entry>): seq<string> {
    if entries == [] then []
    else (if entries[0].row.retain then [] else [entries[0].key.id]) + NotRetained(entries[1..])
  }

  /** The identifiers, in order, of the rows that ask for an acknowledgement. */
  lemma {:induction false} NotRetainedMeans(entries: seq<Entry>)
    ensures forall id :: id in NotRetained(entries) <==>
      exists e :: e in entries && e.key.id == id && !e.row.retain
    ensures (forall e | e in entries :: !e.row.retain) ==>
      |NotRetained(entries)| == |entries|
      && forall i | 0 <= i < |entries| :: NotRetained(entries)[i] == entries[i].key.id
  {
    if entries != [] {
      NotRetainedMeans(entries[1..]);
      assert forall e :: e in entries <==> e == entries[0] || e in entries[1..];
    }
  }

  /** A send holds a batch of live rows, each once; an acknowledgement follows a good send at once and
      names its rows that are not retained. */
  predicate Lawful(before: seq<Event>, e: Event) {
    match e
    case Enqueued(_) => true
    case Sent(entries, _) => 0 < |entries| <= 20 && Distinct(entries)
      && forall x | x in entries :: Live(before, x.key)
    case Acked(ids, _) =>
      before != [] && before[|before| - 1].Sent? && before[|before| - 1].good
      && ids == NotRetained(before[|before| - 1].entries)
  }

  ghost predicate Legal(trace: seq<Event>) {
    forall j | 0 <= j < |trace| :: Lawful(trace[..j], trace[j])
  }

  lemma LegalAppend(trace: seq<Event>, e: Event)
    requires Legal(trace) && Lawful(trace, e)
    ensures Legal(trace + [e])
  {
    hide Lawful;
    var all := trace + [e];
    forall j | 0 <= j < |all| ensures Lawful(all[..j], all[j]) {
      assert all[..j] == trace[..j];
      assert j < |trace| ==> all[j] == trace[j];
      assert trace[..|trace|] == trace;
    }
  }

  lemma LiveAppend(trace: seq<Event>, e: Event)
    ensures forall key :: Live(trace + [e], key) == LiveAfter(Live(trace, key), e, key)
  {
    assert (trace + [e])[..|trace|] == trace;
  }

  /** No row is sent live twice: between two sends of one key the row has been scheduled anew. */
  lemma SentOnce(trace: seq<Event>, i: nat, j: nat, key: Key)
    requires Legal(trace) && i < j < |trace| && trace[i].Sent? && trace[j].Sent?
    requires key in Keys(trace[i].entries) && key in Keys(trace[j].entries)
    ensures exists k :: i < k < j && trace[k] == Enqueued(key)
  {
    assert Lawful(trace[..j], trace[j]);
    var x :| x in trace[j].entries && x.key == key;
    assert Live(trace[..j], key);
    LiveSince(trace, i, j, key);
  }

  lemma {:induction false} LiveSince(trace: seq<Event>, i: nat, j: nat, key: Key)
    requires i < j <= |trace| && trace[i].Sent? && key in Keys(trace[i].entries) && Live(trace[..j], key)
    ensures exists k :: i < k < j && trace[k] == Enqueued(key)
    decreases j
  {
    assert trace[..j] == trace[..j - 1] + [trace[j - 1]];
    LiveAppend(trace[..j - 1], trace[j - 1]);
    if trace[j - 1] != Enqueued(key) && i < j - 1 {
      LiveSince(trace, i, j - 1, key);
    }
  }

  // ---------- the queue ----------

  datatype Scheduling = Scheduled | DeadlineUnknown | AlreadyScheduled | Full | NotWritten

  predicate SoundRow(row: Row) {
    0 < row.due - row.created <= 900
  }

  ghost predicate Kept(rows: map<Key, Row>, trace: seq<Event>) {
    && Legal(trace) && |rows| <= 256
    && (forall key | key in rows :: SoundRow(rows[key]))
    && (forall key | key in rows && !rows[key].attempted :: Live(trace, key))
  }

  ghost predicate Onward(before: map<Key, Row>, after: map<Key, Row>) {
    after.Keys <= before.Keys
    && forall key | key in after :: after[key] == before[key] || after[key] == before[key].(attempted := true)
  }

  // ---------- what a batch is ----------

  /** The reader shows the message unread, with the very body that was queued. */
  predicate ShownUnread(e: Entry, unread: map<string, string>) {
    e.key.id in unread && unread[e.key.id] == e.row.body
  }

  /** Made earlier, or at once and of no later id. */
  predicate NotAfter(a: Entry, b: Entry) {
    a.row.created < b.row.created || (a.row.created == b.row.created && !TextOrder.Less(b.key.id, a.key.id))
  }

  /** At most twenty of the entries the reader shows, each once, oldest first; who is left out though it is shown
      finds the batch full of entries no younger. */
  ghost predicate RightBatch(entries: seq<Entry>, unread: map<string, string>, batch: seq<Entry>) {
    && |batch| <= 20 && Distinct(batch)
    && (forall e | e in batch :: e in entries && ShownUnread(e, unread))
    && (forall i, j | 0 <= i < j < |batch| :: NotAfter(batch[i], batch[j]))
    && (forall e | e in entries && ShownUnread(e, unread) && e !in batch ::
          |batch| == 20 && forall x | x in batch :: NotAfter(x, e))
  }

  lemma OlderNotAfter(a: Entry, b: Entry)
    ensures Older(b, a) <==> !NotAfter(a, b)
  {
  }

  /** Picking from entries in order keeps the order. */
  lemma {:induction false} PickInOrder(entries: seq<Entry>, unread: map<string, string>, left: nat)
    requires InOrder(entries, Older)
    ensures InOrder(Pick(entries, unread, left), Older)
  {
    hide Older;
    if entries != [] && left > 0 {
      var rest := entries[1..];
      assert InOrder(rest, Older);
      if Deliverable(entries[0], unread) {
        PickInOrder(rest, unread, left - 1);
        PickMembers(rest, unread, left - 1);
        var picked := Pick(rest, unread, left - 1);
        forall j | 0 <= j < |picked| ensures !Older(picked[j], entries[0]) {
          assert picked[j] in rest;
          var k :| 0 <= k < |rest| && rest[k] == picked[j];
          assert entries[k + 1] == picked[j];
        }
      } else {
        PickInOrder(rest, unread, left);
      }
    }
  }

  lemma BatchIsRight(entries: seq<Entry>, unread: map<string, string>)
    requires Distinct(entries)
    ensures RightBatch(entries, unread, Pick(Sort(entries, Older), unread, BATCH))
  {
    hide Sort, Pick, Older, NotAfter, Distinct, Deliverable;
    var sorted := Sort(entries, Older);
    var batch := Pick(sorted, unread, BATCH);
    SortedEntries(entries);
    SortedRound(entries);
    PickMembers(sorted, unread, BATCH);
    PickDistinct(sorted, unread, BATCH);
    PickInOrder(sorted, unread, BATCH);
    forall a, b ensures Older(b, a) <==> !NotAfter(a, b) { OlderNotAfter(a, b); }
    forall e ensures Deliverable(e, unread) <==> ShownUnread(e, unread) { DeliverableMeans(e, unread); }
    forall e | e in entries && ShownUnread(e, unread) && e !in batch
      ensures |batch| == 20 && forall x | x in batch :: NotAfter(x, e) {
      assert e in sorted;
      var i :| 0 <= i < |sorted| && sorted[i] == e;
      PickedOrFull(sorted, unread, BATCH, i);
      forall x | x in batch ensures NotAfter(x, e) {
        assert x in sorted[..i];
        var k :| 0 <= k < i && sorted[..i][k] == x;
        assert !Older(sorted[i], sorted[k]);
      }
    }
  }

  lemma DeliverableMeans(e: Entry, unread: map<string, string>)
    ensures Deliverable(e, unread) <==> ShownUnread(e, unread)
  {
  }

  // ---------- what was delivered ----------

  /** A good send, and the acknowledgement if one was owed. */
  predicate GoodBatch(events: seq<Event>, k: nat) {
    && k < |events| && events[k].Sent? && events[k].good
    && (NotRetained(events[k].entries) != [] ==>
          k + 1 < |events| && events[k + 1] == Acked(NotRetained(events[k].entries), true))
  }

  /** The entry, as it was read, stood in a good batch. */
  ghost predicate SentWell(events: seq<Event>, e: Entry) {
    exists k: nat :: GoodBatch(events, k) && e in events[k].entries
  }

  /** Every row that is gone was pending and stood in a good batch. */
  ghost predicate GoneBySend(before: map<Key, Row>, after: map<Key, Row>, events: seq<Event>) {
    forall key | key in before && key !in after :: !before[key].attempted && SentWell(events, Entry(key, before[key]))
  }

  /** The good batches, one after another. */
  function Batches(events: seq<Event>): seq<Entry> {
    if events == [] then []
    else (if GoodBatch(events, 0) then events[0].entries else []) + Batches(events[1..])
  }

  /** The events of one visit: nothing, or one send and what followed it. */
  predicate OneVisit(events: seq<Event>) {
    events != [] ==> events[0].Sent? && |events| <= 2 && (|events| == 2 ==> events[1].Acked?)
  }

  lemma {:induction false} BatchesAppend(past: seq<Event>, events: seq<Event>)
    requires OneVisit(events)
    ensures Batches(past + events) == Batches(past) + Batches(events)
  {
    hide NotRetained;
    var all := past + events;
    if past == [] {
      assert all == events;
    } else {
      assert all[1..] == past[1..] + events;
      assert |past| == 1 && events != [] ==> all[1] == events[0];
      assert GoodBatch(all, 0) <==> GoodBatch(past, 0);
      BatchesAppend(past[1..], events);
    }
  }

  lemma VisitBatches(events: seq<Event>)
    requires OneVisit(events)
    ensures Batches(events) == if GoodBatch(events, 0) then events[0].entries else []
  {
    hide NotRetained;
    if events != [] {
      assert Batches(events[1..]) == [] by {
        if |events| == 2 { assert events[1..] == [events[1]] && events[1..][1..] == []; }
      }
    }
  }

  lemma SentWellStays(past: seq<Event>, events: seq<Event>, e: Entry)
    ensures SentWell(past, e) || SentWell(events, e) ==> SentWell(past + events, e)
  {
    hide NotRetained;
    var all := past + events;
    if SentWell(past, e) {
      var k: nat :| GoodBatch(past, k) && e in past[k].entries;
      assert GoodBatch(all, k) && all[k] == past[k];
    } else if SentWell(events, e) {
      var k: nat :| GoodBatch(events, k) && e in events[k].entries;
      assert all[|past| + k] == events[k] && (k + 1 < |events| ==> all[|past| + k + 1] == events[k + 1]);
      assert GoodBatch(all, |past| + k);
    }
  }

  /** The same over one more visit. */
  lemma GoneMore(first: map<Key, Row>, before: map<Key, Row>, after: map<Key, Row>, past: seq<Event>,
                 events: seq<Event>)
    requires Onward(first, before) && GoneBySend(first, before, past) && GoneBySend(before, after, events)
    ensures GoneBySend(first, after, past + events)
  {
    hide SentWell;
    forall key | key in first && key !in after
      ensures !first[key].attempted && SentWell(past + events, Entry(key, first[key])) {
      SentWellStays(past, events, Entry(key, first[key]));
      if key in before { assert before[key] == first[key]; }
    }
  }

  /** The delivered rows are those that are gone, as they were. */
  ghost predicate Emptied(before: map<Key, Row>, after: map<Key, Row>, delivered: seq<Entry>) {
    && (forall e | e in delivered :: e.key in before && before[e.key] == e.row && e.key !in after)
    && (forall key | key in before && key !in after :: Entry(key, before[key]) in delivered)
  }

  lemma EmptiedMore(first: map<Key, Row>, before: map<Key, Row>, after: map<Key, Row>, sofar: seq<Entry>,
                    more: seq<Entry>)
    requires Onward(first, before) && Onward(before, after)
    requires Emptied(first, before, sofar) && Emptied(before, after, more)
    requires forall e | e in more :: !e.row.attempted
    ensures Emptied(first, after, sofar + more)
  {
    forall e | e in sofar + more ensures e.key in first && first[e.key] == e.row && e.key !in after {
      if e in sofar { assert e.key !in before; }
    }
    forall key | key in first && key !in after ensures Entry(key, first[key]) in sofar + more {
      if key in before {
        assert Entry(key, before[key]) in more;
        assert before[key] == first[key];
      }
    }
  }

  type Visits = map<(string, string), Option<Round>>

  /** Some group's batch holds the key. */
  predicate InBatch(visited: Visits, key: Key) {
    exists g | g in visited :: visited[g].Some? && key in Keys(Picked(visited[g].value))
  }

  /** Rows in nobody's batch are as they were. */
  ghost predicate OthersStay(before: map<Key, Row>, after: map<Key, Row>, visited: Visits) {
    forall key | key in before && !InBatch(visited, key) :: key in after && after[key] == before[key]
  }

  /** The batch was sent live. */
  ghost predicate WasSent(events: seq<Event>, picked: seq<Entry>) {
    picked != [] ==> exists k :: 0 <= k < |events| && events[k].Sent? && events[k].entries == picked
  }

  ghost predicate AllSent(visited: Visits, events: seq<Event>) {
    forall g | g in visited && visited[g].Some? :: WasSent(events, Picked(visited[g].value))
  }

  predicate IsBatch(visited: Visits, entries: seq<Entry>) {
    exists g | g in visited :: visited[g].Some? && entries == Picked(visited[g].value)
  }

  /** Nothing but batches was sent. */
  ghost predicate OnlyBatches(visited: Visits, events: seq<Event>) {
    forall e | e in events && e.Sent? :: IsBatch(visited, e.entries)
  }

  lemma OnlyBatchesMore(visited: Visits, past: seq<Event>, events: seq<Event>, g: (string, string),
                        round: Option<Round>)
    requires OnlyBatches(visited, past) && g !in visited
    requires forall e | e in events && e.Sent? :: round.Some? && e.entries == Picked(round.value)
    ensures OnlyBatches(visited[g := round], past + events)
  {
    hide Picked;
    var visited' := visited[g := round];
    forall e | e in past + events && e.Sent? ensures IsBatch(visited', e.entries) {
      if e in past {
        assert IsBatch(visited, e.entries);
        var o :| o in visited && visited[o].Some? && e.entries == Picked(visited[o].value);
        assert o in visited' && visited'[o] == visited[o];
      } else {
        assert g in visited';
      }
    }
  }

  lemma WasSentStays(past: seq<Event>, events: seq<Event>, picked: seq<Entry>)
    ensures WasSent(past, picked) || WasSent(events, picked) ==> WasSent(past + events, picked)
  {
    var all := past + events;
    if picked != [] {
      if WasSent(past, picked) {
        var k :| 0 <= k < |past| && past[k].Sent? && past[k].entries == picked;
        assert all[k] == past[k];
      } else if WasSent(events, picked) {
        var k :| 0 <= k < |events| && events[k].Sent? && events[k].entries == picked;
        assert all[|past| + k] == events[k];
      }
    }
  }

  lemma AllSentMore(visited: Visits, past: seq<Event>, events: seq<Event>, g: (string, string), round: Option<Round>)
    requires AllSent(visited, past) && (round.Some? ==> WasSent(events, Picked(round.value)))
    ensures AllSent(visited[g := round], past + events)
  {
    hide WasSent, Picked;
    var visited' := visited[g := round];
    forall o | o in visited' && visited'[o].Some? ensures WasSent(past + events, Picked(visited'[o].value)) {
      WasSentStays(past, events, Picked(visited'[o].value));
    }
  }

  lemma OthersStayMore(first: map<Key, Row>, before: map<Key, Row>, after: map<Key, Row>, visited: Visits,
                       g: (string, string), round: Option<Round>)
    requires g !in visited && OthersStay(first, before, visited)
    requires round.None? ==> after == before
    requires round.Some? ==> Settled(before, after, Picked(round.value))
    ensures OthersStay(first, after, visited[g := round])
  {
    hide Picked, Keys;
    var visited' := visited[g := round];
    forall key | key in first && !InBatch(visited', key) ensures key in after && after[key] == first[key] {
      assert g in visited';
      forall o | o in visited ensures !(visited[o].Some? && key in Keys(Picked(visited[o].value))) {
        assert visited'[o] == visited[o];
      }
      assert !InBatch(visited, key);
    }
  }

  predicate AttemptedOrGone(rows: map<Key, Row>, key: Key) {
    key in rows ==> rows[key].attempted
  }

  function GroupOf(e: Entry): (string, string) {
    (e.key.recipient, e.key.backend)
  }

  /** A round of a group: rows of it that were pending before, oldest first, and those picked are attempted
      or gone after. */
  ghost predicate RoundOf(round: Round, g: (string, string), before: map<Key, Row>, after: map<Key, Row>) {
    && Distinct(round.entries) && InOrder(round.entries, Older)
    && (forall e | e in round.entries :: Fresh(before, e) && GroupOf(e) == g)
    && (forall e | e in Picked(round) :: AttemptedOrGone(after, e.key))
  }

  /** The entry's group was visited, and the entry stands in the round if it came to one. */
  predicate Stands(visited: Visits, e: Entry) {
    GroupOf(e) in visited && (visited[GroupOf(e)].Some? ==> e in visited[GroupOf(e)].value.entries)
  }

  /** What a sweep has done on every way out: no row appeared and none went back to pending, and those that are
      gone were sent well. */
  ghost predicate Swept(before: map<Key, Row>, after: map<Key, Row>, events: seq<Event>) {
    Onward(before, after) && GoneBySend(before, after, events)
  }

  /** What a sweep that did not raise has done besides: every round was one of pending rows, whose batch was
      sent and is attempted or gone; and every row that nothing held back stood in its group's round, when there
      was one. */
  ghost predicate SweptWell(before: map<Key, Row>, after: map<Key, Row>, cards: map<string, Card>, now: int,
                            visited: Visits, events: seq<Event>) {
    && AllSent(visited, events)
    && (forall g | g in visited && visited[g].Some? :: RoundOf(visited[g].value, g, before, after))
    && (forall key | key in before && MustRelease(before[key], key, cards, now) ::
          Stands(visited, Entry(key, before[key])))
  }

  /** The rounds so far are rounds of these groups. */
  ghost predicate RoundsOf(visited: Visits, groups: map<(string, string), seq<Entry>>, before: map<Key, Row>,
                           after: map<Key, Row>)
    requires visited.Keys <= groups.Keys
  {
    forall g | g in visited && visited[g].Some? ::
      RoundOf(visited[g].value, g, before, after) && visited[g].value.entries == Sort(groups[g], Older)
  }

  lemma NothingMoved(rows: map<Key, Row>)
    ensures Along(rows, rows, map[], [], []) && Emptied(rows, rows, []) && Batches([]) == []
  {
  }

  lemma AlongMeans(first: map<Key, Row>, rows: map<Key, Row>, visited: Visits, events: seq<Event>,
                   delivered: seq<Entry>)
    requires Along(first, rows, visited, events, delivered)
    ensures Swept(first, rows, events) && OthersStay(first, rows, visited) && AllSent(visited, events)
    ensures OnlyBatches(visited, events)
    ensures delivered == Batches(events) && Emptied(first, rows, delivered)
  {
  }

  lemma VisitMoved(before: seq<Event>, after: seq<Event>, rows: map<Key, Row>, rows': map<Key, Row>,
                   round: Option<Round>)
    requires VisitDid(before, after, rows, rows', round)
    ensures round.None? ==> rows' == rows
    ensures round.Some? ==> Settled(rows, rows', Picked(round.value))
  {
  }

  lemma RoundsMore(visited: Visits, groups: map<(string, string), seq<Entry>>, first: map<Key, Row>,
                   before: map<Key, Row>,
                   after: map<Key, Row>, cards: map<string, Card>, g: (string, string), round: Option<Round>)
    requires visited.Keys <= groups.Keys && RoundsOf(visited, groups, first, before)
    requires g in groups && Grouped(groups, first, cards)
    requires round.None? ==> after == before
    requires round.Some? ==>
      round.value.entries == Sort(groups[g], Older) && Settled(before, after, Picked(round.value))
    requires round.Some? ==> forall e | e in Picked(round.value) :: AttemptedOrGone(after, e.key)
    ensures RoundsOf(visited[g := round], groups, first, after)
  {
    hide Sort, Pick, Older, Bound, Fresh, Distinct;
    forall o | o in visited && visited[o].Some? ensures RoundOf(visited[o].value, o, first, after) {
      if round.Some? { RoundStill(visited[o].value, o, first, before, after, Picked(round.value)); }
    }
    if round.Some? {
      assert forall e | e in groups[g] :: Fresh(first, e) && GroupOf(e) == g;
      SortedEntries(groups[g]);
      SortedRound(groups[g]);
    }
  }

  lemma RoundStill(round: Round, g: (string, string), first: map<Key, Row>, before: map<Key, Row>, after: map<Key, Row>,
                   picked: seq<Entry>)
    requires RoundOf(round, g, first, before) && Settled(before, after, picked)
    ensures RoundOf(round, g, first, after)
  {
    hide Pick, Older, Fresh, Distinct;
  }

  lemma SortedRound(entries: seq<Entry>)
    ensures InOrder(Sort(entries, Older), Older)
  {
    hide Older;
    OlderIsOrder();
    SortSorts(entries, Older);
  }

  lemma EveryRound(visited: Visits, groups: map<(string, string), seq<Entry>>, before: map<Key, Row>,
                   after: map<Key, Row>, cards: map<string, Card>, now: int, events: seq<Event>)
    requires visited.Keys == groups.Keys && RoundsOf(visited, groups, before, after) && AllSent(visited, events)
    requires Grouped(groups, before, cards)
    requires forall key | key in before && MustRelease(before[key], key, cards, now) ::
      Holds(groups, Entry(key, before[key]))
    ensures SweptWell(before, after, cards, now, visited, events)
  {
    hide Sort, Older, Bound, Fresh, MustRelease, RoundOf, Distinct, AllSent;
    forall key | key in before && MustRelease(before[key], key, cards, now)
      ensures Stands(visited, Entry(key, before[key])) {
      var e := Entry(key, before[key]);
      assert Holds(groups, e);
      SortedEntries(groups[GroupOf(e)]);
    }
  }

  predicate AllFresh(rows: map<Key, Row>, entries: seq<Entry>) {
    Distinct(entries) && forall e | e in entries :: Fresh(rows, e)
  }

  lemma StillFresh(groups: map<(string, string), seq<Entry>>, rows: map<Key, Row>, cards: map<string, Card>)
    requires Grouped(groups, rows, cards)
    ensures forall g | g in groups :: AllFresh(rows, groups[g])
    ensures Owned(groups) && forall g | g in groups :: g.0 in cards
  {
    hide Distinct;
    forall g | g in groups ensures g.0 in cards { assert groups[g][0] in groups[g]; }
  }

  /** What the contract of a visit says of the rows and the events. */
  ghost predicate VisitDid(before: seq<Event>, after: seq<Event>, rows: map<Key, Row>, rows': map<Key, Row>,
                           round: Option<Round>) {
    && (round.None? ==> rows' == rows && after == before)
    && (round.Some? ==> Settled(rows, rows', Picked(round.value)))
    && (after == before || (round.Some? && SendOnce(before, after, Picked(round.value))))
    && (forall key | key in rows && key !in rows' ::
          round.Some? && GoodSend(before, after, Picked(round.value))
          && Entry(key, rows[key]) in Picked(round.value) && !rows[key].attempted)
  }

  lemma VisitSent(before: seq<Event>, after: seq<Event>, rows: map<Key, Row>, rows': map<Key, Row>,
                  round: Option<Round>)
    requires VisitDid(before, after, rows, rows', round)
    ensures before <= after && OneVisit(after[|before|..]) && Swept(rows, rows', after[|before|..])
    ensures round.Some? && (Picked(round.value) != [] ==> after != before) ==>
      WasSent(after[|before|..], Picked(round.value))
    ensures forall e | e in after[|before|..] && e.Sent? :: round.Some? && e.entries == Picked(round.value)
  {
    hide NotRetained, Picked;
    var events := after[|before|..];
    forall key | key in rows && key !in rows' ensures SentWell(events, Entry(key, rows[key])) {
      assert GoodBatch(events, 0) && events[0].entries == Picked(round.value);
    }
    if after != before { assert events[0] == after[|before|]; }
  }

  /** How far a sweep has come. */
  ghost predicate Along(first: map<Key, Row>, rows: map<Key, Row>, visited: Visits, events: seq<Event>,
                        delivered: seq<Entry>) {
    && Swept(first, rows, events) && OthersStay(first, rows, visited)
    && OnlyBatches(visited, events) && AllSent(visited, events)
    && delivered == Batches(events) && Emptied(first, rows, delivered)
  }

  lemma VisitStops(first: map<Key, Row>, before: map<Key, Row>, after: map<Key, Row>, visited: Visits,
                   g: (string, string), round: Option<Round>, past: seq<Event>, sofar: seq<Event>, trace: seq<Event>,
                   delivered: seq<Entry>)
    requires Along(first, before, visited, past, delivered) && g !in visited
    requires VisitDid(sofar, trace, before, after, round)
    ensures sofar <= trace
    ensures Swept(first, after, past + trace[|sofar|..]) && OthersStay(first, after, visited[g := round])
    ensures OnlyBatches(visited[g := round], past + trace[|sofar|..])
  {
    hide GoneBySend, OthersStay, OnlyBatches, AllSent, Batches, Emptied, Settled, Picked, Onward, SendOnce, GoodSend;
    VisitSent(sofar, trace, before, after, round);
    GoneMore(first, before, after, past, trace[|sofar|..]);
    OthersStayMore(first, before, after, visited, g, round);
    OnwardOn(first, before, after);
    OnlyBatchesMore(visited, past, trace[|sofar|..], g, round);
  }

  lemma OnwardOn(first: map<Key, Row>, before: map<Key, Row>, after: map<Key, Row>)
    requires Onward(first, before) && Onward(before, after)
    ensures Onward(first, after)
  {
  }

  lemma VisitGoesOn(first: map<Key, Row>, before: map<Key, Row>, after: map<Key, Row>, visited: Visits,
                    g: (string, string), round: Option<Round>, past: seq<Event>, sofar: seq<Event>, trace: seq<Event>,
                    delivered: seq<Entry>, more: seq<Entry>)
    requires Along(first, before, visited, past, delivered) && g !in visited
    requires VisitDid(sofar, trace, before, after, round)
    requires sofar <= trace && more == Batches(trace[|sofar|..]) && Emptied(before, after, more)
    requires round.Some? && Picked(round.value) != [] ==> trace != sofar
    requires forall e | e in more :: !e.row.attempted
    ensures Along(first, after, visited[g := round], past + trace[|sofar|..], delivered + more)
  {
    hide GoneBySend, OthersStay, OnlyBatches, AllSent, Batches, Emptied, Settled, Picked, Onward, SendOnce, GoodSend;
    hide OneVisit, VisitDid, WasSent;
    VisitStops(first, before, after, visited, g, round, past, sofar, trace, delivered);
    VisitSent(sofar, trace, before, after, round);
    AllSentMore(visited, past, trace[|sofar|..], g, round);
    BatchesAppend(past, trace[|sofar|..]);
    EmptiedMore(first, before, after, delivered, more);
  }

  /** Another group's batch leaves a group's rows alone. */
  lemma OthersFresh(groups: map<(string, string), seq<Entry>>, before: map<Key, Row>, after: map<Key, Row>,
                    cards: map<string, Card>,
                    g: (string, string), round: Round, others: set<(string, string)>)
    requires g in groups && others <= groups.Keys - {g} && Owned(groups)
    requires round.entries == Sort(groups[g], Older) && Distinct(groups[g]) && Settled(before, after, Picked(round))
    requires forall o | o in others :: AllFresh(before, groups[o])
    ensures forall o | o in others :: AllFresh(after, groups[o])
  {
    hide Sort, Pick, Distinct;
    SortedEntries(groups[g]);
    PickMembers(round.entries, round.unread, BATCH);
    forall o, e | o in others && e in groups[o] ensures Fresh(after, e) {
      assert Fresh(before, e);
    }
  }

  /** Groups hold rows of their own recipient and backend. */
  predicate Owned(groups: map<(string, string), seq<Entry>>) {
    forall g | g in groups :: forall e | e in groups[g] :: (e.key.recipient, e.key.backend) == g
  }

  /** A pending row, as it was read. */
  predicate Fresh(rows: map<Key, Row>, e: Entry) {
    e.key in rows && rows[e.key] == e.row && !e.row.attempted
  }

  /** A row claimed and not yet sent. */
  predicate Taken(rows: map<Key, Row>, trace: seq<Event>, e: Entry) {
    e.key in rows && rows[e.key].attempted && Live(trace, e.key)
  }

  ghost predicate Marked(before: map<Key, Row>, after: map<Key, Row>, keys: set<Key>)
    requires before.Keys == after.Keys
  {
    forall key | key in after ::
      after[key] == before[key] || (key in keys && after[key] == before[key].(attempted := true))
  }

  lemma MarkedNone(rows: map<Key, Row>)
    ensures Marked(rows, rows, Keys([]))
  {
  }

  lemma MarkedSettled(before: map<Key, Row>, after: map<Key, Row>, some: seq<Entry>, more: seq<Entry>)
    requires before.Keys == after.Keys && Marked(before, after, Keys(some))
    ensures Settled(before, after, some + more)
  {
    assert Keys(some) <= Keys(some + more) by {
      forall k | k in Keys(some) ensures k in Keys(some + more) {
        var e :| e in some && e.key == k;
        assert e in some + more;
      }
    }
  }

  lemma PickStep(ready: seq<Entry>, e: Entry, rest: seq<Entry>, unread: map<string, string>)
    requires |ready| < BATCH
    ensures ready + Pick([e] + rest, unread, BATCH - |ready|)
      == if Deliverable(e, unread) then (ready + [e]) + Pick(rest, unread, BATCH - |ready| - 1)
         else ready + Pick(rest, unread, BATCH - |ready|)
  {
    assert ([e] + rest)[1..] == rest;
    var later := Pick(rest, unread, BATCH - |ready| - 1);
    assert ready + ([e] + later) == (ready + [e]) + later;
  }

  lemma ClaimOne(before: map<Key, Row>, rows: map<Key, Row>, trace: seq<Event>, ready: seq<Entry>, e: Entry,
                 sorted: seq<Entry>, i: nat)
    requires Kept(rows, trace) && before.Keys == rows.Keys && Marked(before, rows, Keys(ready))
    requires Distinct(sorted) && i < |sorted| && sorted[i] == e
    requires forall x | x in sorted[i..] :: Fresh(rows, x)
    requires forall x | x in ready :: Taken(rows, trace, x)
    ensures var rows' := rows[e.key := e.row.(attempted := true)];
      && Kept(rows', trace) && rows'.Keys == rows.Keys && Marked(before, rows', Keys(ready + [e]))
      && (forall x | x in ready + [e] :: Taken(rows', trace, x))
      && (forall x | x in sorted[i + 1..] :: Fresh(rows', x))
  {
    hide Legal, Live;
    var rows' := rows[e.key := e.row.(attempted := true)];
    assert e in sorted[i..] && Fresh(rows, e);
    assert rows'.Keys == rows.Keys;
    assert |rows'| == |rows'.Keys| == |rows.Keys|;
    assert Keys(ready + [e]) == Keys(ready) + {e.key} by { KeysAppend(ready, e); }
    forall x | x in sorted[i + 1..] ensures Fresh(rows', x) {
      var k :| i + 1 <= k < |sorted| && sorted[k] == x;
      assert x in sorted[i..] by { assert sorted[i..][k - i] == x; }
    }
  }

  lemma KeysAppend(ready: seq<Entry>, e: Entry)
    ensures Keys(ready + [e]) == Keys(ready) + {e.key}
  {
    forall k | k in Keys(ready) + {e.key} ensures k in Keys(ready + [e]) {
      if k == e.key { assert e in ready + [e]; } else {
        var x :| x in ready && x.key == k;
        assert x in ready + [e];
      }
    }
  }

  lemma KeptLess(rows: map<Key, Row>, trace: seq<Event>, key: Key)
    requires Kept(rows, trace)
    ensures Kept(rows - {key}, trace)
  {
    hide Legal, Live;
    OneLess(rows, key);
  }

  // ---------- what the contracts say ----------

  /** The recipient is the one the row was queued for. */
  predicate Bound(row: Row, key: Key, cards: map<string, Card>) {
    key.recipient in cards && !cards[key.recipient].retired && cards[key.recipient].pane == row.pane
    && cards[key.recipient].host == row.host
  }

  /** A row nothing can hold back: its deadline has passed, or the clock stands before its making. */
  predicate MustRelease(row: Row, key: Key, cards: map<string, Card>, now: int) {
    !row.attempted && Bound(row, key, cards) && !(row.created <= now < row.due)
  }

  predicate Grouped(groups: map<(string, string), seq<Entry>>, rows: map<Key, Row>, cards: map<string, Card>) {
    forall g | g in groups :: groups[g] != [] && Distinct(groups[g]) && forall e | e in groups[g] ::
      Fresh(rows, e) && Bound(e.row, e.key, cards) && (e.key.recipient, e.key.backend) == g
  }

  /** Rows outside the batch are as they were; rows of the batch may have become attempted, or be gone. */
  ghost predicate Settled(before: map<Key, Row>, after: map<Key, Row>, picked: seq<Entry>) {
    && after.Keys <= before.Keys
    && (forall key | key in before && key !in Keys(picked) :: key in after && after[key] == before[key])
    && (forall key | key in after :: after[key] == before[key] || after[key] == before[key].(attempted := true))
  }

  ghost predicate SendOnce(before: seq<Event>, after: seq<Event>, picked: seq<Entry>) {
    |before| < |after| <= |before| + 2 && before <= after
    && after[|before|].Sent? && after[|before|].entries == picked
    && (|after| == |before| + 2 ==> after[|before| + 1].Acked?)
  }

  /** The send was good, and so was the acknowledgement if one was owed. */
  ghost predicate GoodSend(before: seq<Event>, after: seq<Event>, picked: seq<Entry>) {
    SendOnce(before, after, picked) && after[|before|].good
    && (if NotRetained(picked) == [] then |after| == |before| + 1
        else |after| == |before| + 2 && after[|before| + 1] == Acked(NotRetained(picked), true))
  }

  lemma OneMore(rows: map<Key, Row>, key: Key, row: Row)
    ensures |rows[key := row]| <= |rows| + 1
  {
    assert rows[key := row].Keys == rows.Keys + {key};
  }

  lemma OneLess(rows: map<Key, Row>, key: Key)
    ensures |rows - {key}| <= |rows|
  {
    assert (rows - {key}).Keys == rows.Keys - {key};
  }

  /** The entry stands in the group of its recipient and backend. */
  predicate Holds(groups: map<(string, string), seq<Entry>>, e: Entry) {
    var g := (e.key.recipient, e.key.backend);
    g in groups && e in groups[g]
  }

  predicate From(groups: map<(string, string), seq<Entry>>, keys: seq<Key>) {
    forall g | g in groups :: forall e | e in groups[g] :: e.key in keys
  }

  /** Of these rows, all that nothing holds back stand in their groups. */
  predicate AllHeld(groups: map<(string, string), seq<Entry>>, rows: map<Key, Row>, cards: map<string, Card>, now: int,
                    keys: seq<Key>) {
    forall key | key in keys ::
      key in rows && (MustRelease(rows[key], key, cards, now) ==> Holds(groups, Entry(key, rows[key])))
  }

  lemma NoGroups(rows: map<Key, Row>, cards: map<string, Card>, now: int)
    ensures Grouped(map[], rows, cards) && From(map[], []) && AllHeld(map[], rows, cards, now, [])
  {
  }

  /** A row that is passed over was held back by something. */
  lemma Passed(groups: map<(string, string), seq<Entry>>, rows: map<Key, Row>, cards: map<string, Card>, now: int,
               keys: seq<Key>, key: Key)
    requires From(groups, keys) && AllHeld(groups, rows, cards, now, keys) && key in rows
    ensures From(groups, keys + [key])
    ensures rows[key].attempted || !Bound(rows[key], key, cards) || rows[key].created <= now < rows[key].due
      ==> AllHeld(groups, rows, cards, now, keys + [key])
  {
    hide Bound, Holds;
  }

  lemma Released(groups: map<(string, string), seq<Entry>>, rows: map<Key, Row>, cards: map<string, Card>, now: int,
                 keys: seq<Key>, key: Key)
    requires Grouped(groups, rows, cards) && From(groups, keys) && AllHeld(groups, rows, cards, now, keys)
    requires key !in keys
    requires key in rows && !rows[key].attempted && Bound(rows[key], key, cards)
    ensures var g := (key.recipient, key.backend);
      var groups' := groups[g := (if g in groups then groups[g] else []) + [Entry(key, rows[key])]];
      Grouped(groups', rows, cards) && From(groups', keys + [key]) && AllHeld(groups', rows, cards, now, keys + [key])
  {
    hide Bound, MustRelease, Grouped, From, Holds;
    GroupMore(groups, rows, cards, Entry(key, rows[key]), keys);
  }

  lemma EveryHeld(groups: map<(string, string), seq<Entry>>, rows: map<Key, Row>, cards: map<string, Card>, now: int,
                  keys: seq<Key>)
    requires AllHeld(groups, rows, cards, now, keys) && forall key | key in rows :: key in keys
    ensures forall key | key in rows && MustRelease(rows[key], key, cards, now) :: Holds(groups, Entry(key, rows[key]))
  {
  }

  /** The recipient is in service, in the pane and on the host the row was queued for. */
  predicate Reachable(e: Entry, cards: map<string, Card>) {
    && e.key.recipient in cards && !cards[e.key.recipient].retired
    && cards[e.key.recipient].pane == e.row.pane && cards[e.key.recipient].host == e.row.host
  }

  lemma HeldMeans(groups: map<(string, string), seq<Entry>>, rows: map<Key, Row>, cards: map<string, Card>, now: int)
    requires Grouped(groups, rows, cards)
    requires forall key | key in rows && MustRelease(rows[key], key, cards, now) :: Holds(groups, Entry(key, rows[key]))
    ensures forall g, e | g in groups && e in groups[g] ::
      e.key in rows && rows[e.key] == e.row && !e.row.attempted && Reachable(e, cards)
    ensures forall key | key in rows && !rows[key].attempted && Reachable(Entry(key, rows[key]), cards)
      && (now < rows[key].created || now >= rows[key].due) ::
        (key.recipient, key.backend) in groups && Entry(key, rows[key]) in groups[(key.recipient, key.backend)]
  {
    hide Distinct;
    forall key | key in rows && !rows[key].attempted && Reachable(Entry(key, rows[key]), cards)
        && (now < rows[key].created || now >= rows[key].due)
      ensures (key.recipient, key.backend) in groups && Entry(key, rows[key]) in groups[(key.recipient, key.backend)] {
      assert MustRelease(rows[key], key, cards, now);
      assert Holds(groups, Entry(key, rows[key]));
    }
  }

  lemma SliceKeepsAll(rows: map<Key, Row>, trace: seq<Event>)
    requires Kept(rows, trace)
    ensures |rows| <= 256
  {
  }

  lemma GroupMore(groups: map<(string, string), seq<Entry>>, rows: map<Key, Row>, cards: map<string, Card>, e: Entry,
                  keys: seq<Key>)
    requires Grouped(groups, rows, cards) && From(groups, keys) && e.key !in keys
    requires Fresh(rows, e) && Bound(e.row, e.key, cards)
    ensures var g := (e.key.recipient, e.key.backend);
      var groups' := groups[g := (if g in groups then groups[g] else []) + [e]];
      Grouped(groups', rows, cards) && From(groups', keys + [e.key]) && Holds(groups', e)
      && forall x :: Holds(groups, x) ==> Holds(groups', x)
  {
    hide Bound, Fresh;
    var g := (e.key.recipient, e.key.backend);
    MoreEntries(if g in groups then groups[g] else [], e);
  }

  lemma MoreEntries(entries: seq<Entry>, e: Entry)
    requires Distinct(entries) && forall x | x in entries :: x.key != e.key
    ensures Distinct(entries + [e])
  {
  }

  lemma SortedEntries(entries: seq<Entry>)
    requires Distinct(entries)
    ensures Distinct(Sort(entries, Older)) && forall e :: e in Sort(entries, Older) <==> e in entries
  {
    hide Older;
    if entries != [] {
      SortedEntries(entries[1..]);
      InsertedEntry(entries[0], Sort(entries[1..], Older));
      assert forall e :: e in entries <==> e == entries[0] || e in entries[1..];
      assert forall x | x in entries[1..] :: x.key != entries[0].key;
    }
  }

  lemma {:induction false} InsertedEntry(e: Entry, s: seq<Entry>)
    requires Distinct(s) && forall x | x in s :: x.key != e.key
    ensures Distinct(Insert(e, s, Older)) && forall x :: x in Insert(e, s, Older) <==> x == e || x in s
  {
    hide Older;
    if s != [] && Older(s[0], e) {
      InsertedEntry(e, s[1..]);
      var rest := Insert(e, s[1..], Older);
      assert forall x :: x in s <==> x == s[0] || x in s[1..];
      forall j | 0 <= j < |rest| ensures rest[j].key != s[0].key { assert rest[j] in rest; }
    }
  }

  lemma AfterSent(rows: map<Key, Row>, trace: seq<Event>, ready: seq<Entry>, good: bool)
    requires Kept(rows, trace) && 0 < |ready| <= BATCH && Distinct(ready)
    requires forall e | e in ready :: Taken(rows, trace, e)
    ensures Kept(rows, trace + [Sent(ready, good)])
  {
    hide Legal, Live;
    LegalAppend(trace, Sent(ready, good));
    LiveAppend(trace, Sent(ready, good));
  }

  lemma AfterAcked(rows: map<Key, Row>, trace: seq<Event>, ready: seq<Entry>, good: bool)
    requires Kept(rows, trace) && trace != [] && trace[|trace| - 1] == Sent(ready, true)
    ensures Kept(rows, trace + [Acked(NotRetained(ready), good)])
  {
    hide Legal, Live;
    LegalAppend(trace, Acked(NotRetained(ready), good));
    LiveAppend(trace, Acked(NotRetained(ready), good));
  }

  lemma ReadyRows(rows: map<Key, Row>, ready: seq<Entry>)
    requires forall e | e in ready :: Fresh(rows, e)
    ensures forall key | key in Keys(ready) ::
      key in rows && Entry(key, rows[key]) in ready && !rows[key].attempted
  {
    forall key | key in Keys(ready) ensures key in rows && Entry(key, rows[key]) in ready && !rows[key].attempted {
      var e :| e in ready && e.key == key;
      assert e == Entry(key, rows[key]);
    }
  }

  lemma UnlinkedAll(before: map<Key, Row>, after: map<Key, Row>, ready: seq<Entry>)
    requires forall e | e in ready :: Fresh(before, e)
    requires Keys(ready) !! after.Keys && forall key | key in before && key !in after :: key in Keys(ready)
    ensures Emptied(before, after, ready)
  {
    ReadyRows(before, ready);
    forall e | e in ready ensures e.key !in after { assert e.key in Keys(ready); }
  }

  /** A visit that came to no send. */
  lemma DidNotSend(trace: seq<Event>, rows: map<Key, Row>, rows': map<Key, Row>, round: Option<Round>)
    requires rows'.Keys == rows.Keys && (round.None? ==> rows' == rows)
    requires round.Some? ==> Settled(rows, rows', Picked(round.value))
    ensures VisitDid(trace, trace, rows, rows', round)
    ensures trace[|trace|..] == [] && Batches([]) == [] && Emptied(rows, rows', [])
  {
    hide Picked;
  }

  /** A visit that sent its batch; rows are gone only when the send and what it owed went well. */
  lemma DidSend(before: seq<Event>, events: seq<Event>, first: map<Key, Row>, claimed: map<Key, Row>,
                after: map<Key, Row>, round: Round)
    requires 1 <= |events| <= 2 && events[0].Sent? && events[0].entries == Picked(round)
    requires |events| == 2 ==> events[1].Acked? && events[1].ids == NotRetained(Picked(round))
    requires |events| == 2 ==> NotRetained(Picked(round)) != []
    requires Settled(first, claimed, Picked(round)) && claimed.Keys == first.Keys
    requires forall e | e in Picked(round) :: Fresh(first, e)
    requires forall key | key in after :: key in claimed && after[key] == claimed[key]
    requires forall key | key in claimed && key !in after :: key in Keys(Picked(round)) && GoodBatch(events, 0)
    ensures VisitDid(before, before + events, first, after, Some(round))
    ensures (before + events)[|before|..] == events
    ensures Batches(events) == if GoodBatch(events, 0) then Picked(round) else []
    ensures after.Keys == first.Keys ==> Emptied(first, after, [])
  {
    hide NotRetained, Picked, Batches, Keys;
    VisitBatches(events);
    ReadyRows(first, Picked(round));
    SettledLess(first, claimed, after, Picked(round));
    var all := before + events;
    assert all[|before|] == events[0] && (|events| == 2 ==> all[|before| + 1] == events[1]);
  }

  lemma SettledLess(first: map<Key, Row>, claimed: map<Key, Row>, after: map<Key, Row>, picked: seq<Entry>)
    requires Settled(first, claimed, picked)
    requires forall key | key in after :: key in claimed && after[key] == claimed[key]
    requires forall key | key in claimed && key !in after :: key in Keys(picked)
    ensures Settled(first, after, picked)
  {
    hide Keys;
  }

  /** At most this row is new, under a key that was free. */
  predicate EnqueueStep(before: map<Key, Row>, after: map<Key, Row>, key: Key, row: Row) {
    after == before || (key !in before && !row.attempted && after == before[key := row])
  }

  // ---------- the files ----------

  class Queue {
    var rows: map<Key, Row>
    ghost var trace: seq<Event>

    constructor ()
      ensures Kept(rows, trace) && rows == map[] && trace == []
    {
      rows, trace := map[], [];
    }

    /** `enqueue`; writing may fail with the row there or not. */
    method Enqueue(card: Card, id: string, body: string, backend: string, wait: int, now: int, retain: bool)
        returns (answer: Scheduling)
      requires Kept(rows, trace)
      modifies this
      ensures Kept(rows, trace)
      ensures answer == DeadlineUnknown <==> !(0 < wait <= 900)
      ensures answer == AlreadyScheduled <==> 0 < wait <= 900 && Key(backend, card.name, id) in old(rows)
      ensures answer == Full
        <==> 0 < wait <= 900 && Key(backend, card.name, id) !in old(rows) && |old(rows)| >= 256
      ensures answer == Scheduled ==>
        rows == old(rows)[Key(backend, card.name, id) :=
                            Row(card.pane, card.host, body, now, now + wait, false, retain)]
      ensures answer.DeadlineUnknown? || answer.AlreadyScheduled? || answer.Full? ==>
        rows == old(rows) && trace == old(trace)
      ensures EnqueueStep(old(rows), rows, Key(backend, card.name, id),
                          Row(card.pane, card.host, body, now, now + wait, false, retain))
    {
      hide Legal, Live;
      if !(0 < wait <= LONGEST) { return DeadlineUnknown; }
      var key := Key(backend, card.name, id);
      if key in rows { return AlreadyScheduled; }
      if |rows| >= CAPACITY { return Full; }
      var written: bool := *;
      if !written { return NotWritten; }
      LiveAppend(trace, Enqueued(key));
      LegalAppend(trace, Enqueued(key));
      OneMore(rows, key, Row(card.pane, card.host, body, now, now + wait, false, retain));
      rows := rows[key := Row(card.pane, card.host, body, now, now + wait, false, retain)];
      trace := trace + [Enqueued(key)];
      var raised: bool := *;
      return if raised then NotWritten else Scheduled;
    }

    /** Every file of the queue, in some order. */
    method Listing() returns (keys: seq<Key>)
      ensures forall key :: key in keys <==> key in rows
      ensures forall i, j | 0 <= i < j < |keys| :: keys[i] != keys[j]
      ensures |keys| == |rows|
    {
      keys := [];
      var todo := rows.Keys;
      while todo != {}
        invariant todo <= rows.Keys
        invariant forall key :: key in keys <==> key in rows.Keys - todo
        invariant forall i, j | 0 <= i < j < |keys| :: keys[i] != keys[j]
        invariant |keys| + |todo| == |rows.Keys|
        decreases todo
      {
        var key :| key in todo;
        assert key !in keys;
        keys := keys + [key];
        assert forall k :: k in keys <==> k == key || k in keys[..|keys| - 1];
        todo := todo - {key};
      }
    }

    /** The first half of `sweep`: the rows that are due, by recipient and backend. The slice of 256 drops none. */
    method Gather(cards: map<string, Card>, now: int) returns (groups: map<(string, string), seq<Entry>>)
      requires Kept(rows, trace)
      ensures Grouped(groups, rows, cards)
      ensures forall key | key in rows && MustRelease(rows[key], key, cards, now) ::
        Holds(groups, Entry(key, rows[key]))
      // pending rows of a recipient who is as he was when they were queued; all of those whose time has come
      ensures forall g, e | g in groups && e in groups[g] ::
        e.key in rows && rows[e.key] == e.row && !e.row.attempted && Reachable(e, cards)
      ensures forall key | key in rows && !rows[key].attempted && Reachable(Entry(key, rows[key]), cards)
        && (now < rows[key].created || now >= rows[key].due) ::
          (key.recipient, key.backend) in groups && Entry(key, rows[key]) in groups[(key.recipient, key.backend)]
    {
      hide Kept, Bound, Grouped, MustRelease, From, AllHeld, Fresh, Holds, Reachable;
      SliceKeepsAll(rows, trace);
      var keys := Listing();
      keys := keys[..if |keys| < CAPACITY then |keys| else CAPACITY];
      groups := map[];
      NoGroups(rows, cards, now);
      for i := 0 to |keys|
        invariant Grouped(groups, rows, cards) && From(groups, keys[..i])
        invariant AllHeld(groups, rows, cards, now, keys[..i])
      {
        var key := keys[i];
        var row := rows[key];
        assert keys[..i + 1] == keys[..i] + [key];
        Passed(groups, rows, cards, now, keys[..i], key);
        if row.attempted || !Bound(row, key, cards) { continue; }
        var waits: bool := *;
        if row.created <= now < row.due && waits { continue; }
        var g := (key.recipient, key.backend);
        var already := if g in groups then groups[g] else [];
        Released(groups, rows, cards, now, keys[..i], key);
        groups := groups[g := already + [Entry(key, row)]];
      }
      assert keys[..|keys|] == keys;
      EveryHeld(groups, rows, cards, now, keys);
      HeldMeans(groups, rows, cards, now);
    }

    /** The second half of `sweep`, for one group. `ok` is false when something raised that `sweep` does not catch. */
    method Visit(card: Card, entries: seq<Entry>) returns (ok: bool, delivered: seq<Entry>, ghost round: Option<Round>)
      requires Kept(rows, trace) && Distinct(entries)
      requires forall e | e in entries :: Fresh(rows, e)
      modifies this
      ensures Kept(rows, trace)
      ensures VisitDid(old(trace), trace, old(rows), rows, round)
      ensures round.Some? ==> round.value.entries == Sort(entries, Older)
      ensures round.Some? ==> RightBatch(entries, round.value.unread, Picked(round.value))
      ensures round.Some? && ok ==> forall e | e in Picked(round.value) :: AttemptedOrGone(rows, e.key)
      ensures round.Some? && ok && Picked(round.value) != [] ==> trace != old(trace)
      ensures ok ==> old(trace) <= trace && delivered == Batches(trace[|old(trace)|..])
      ensures ok ==> Emptied(old(rows), rows, delivered)
      ensures forall e | e in delivered :: !e.row.attempted
    {
      hide Kept, Live, Sort, Pick, Distinct, NotRetained, Batches, Keys, VisitDid, Emptied, Settled, RightBatch;
      delivered, round := [], None;
      DidNotSend(trace, rows, rows, None);
      var there: bool := *;
      if card.pane == "" || !there { return true, [], None; }
      var readable: bool, unread: map<string, string> := *, *;
      if !readable { return false, [], None; }
      var sorted := Sort(entries, Older);
      SortedEntries(entries);
      round := Some(Round(sorted, unread));
      PickMembers(sorted, unread, BATCH);
      PickDistinct(sorted, unread, BATCH);
      BatchIsRight(entries, unread);
      var ready: seq<Entry>;
      ok, ready := Claim(sorted, unread);
      DidNotSend(trace, old(rows), rows, round);
      if !ok { return false, [], round; }
      if ready == [] { return true, [], round; }
      ghost var claimed, before := trace, rows;
      var good: bool := *;
      trace := trace + [Sent(ready, good)];
      AfterSent(rows, claimed, ready, good);
      DidSend(claimed, [Sent(ready, good)], old(rows), before, rows, round.value);
      if !good { return true, [], round; }
      ghost var events := [Sent(ready, good)];
      var ids := NotRetained(ready);
      if ids != [] {
        var taken: bool := *;
        ghost var sent := trace;
        trace := trace + [Acked(ids, taken)];
        AfterAcked(rows, sent, ready, taken);
        events := events + [Acked(ids, taken)];
        assert trace == claimed + events;
        DidSend(claimed, events, old(rows), before, rows, round.value);
        if !taken { return true, [], round; }
      }
      ok := Unlink(ready);
      DidSend(claimed, events, old(rows), before, rows, round.value);
      assert trace[|claimed|..] == events;
      if ok {
        delivered := ready;
        UnlinkedAll(old(rows), rows, ready);
      }
    }

    /** `sweep`: every group once. `visited` is what it saw of each group it came to. */
    method Sweep(cards: map<string, Card>, now: int) returns (ok: bool, delivered: seq<Entry>, ghost visited: Visits)
      requires Kept(rows, trace)
      modifies this
      ensures Kept(rows, trace) && old(trace) <= trace
      ensures Swept(old(rows), rows, trace[|old(trace)|..])
      ensures OthersStay(old(rows), rows, visited) && OnlyBatches(visited, trace[|old(trace)|..])
      ensures ok ==> SweptWell(old(rows), rows, cards, now, visited, trace[|old(trace)|..])
      ensures ok ==> delivered == Batches(trace[|old(trace)|..]) && Emptied(old(rows), rows, delivered)
    {
      hide Kept, Picked, Bound, MustRelease, Fresh, Owned, Settled, Grouped, RoundOf;
      hide Onward, GoneBySend, Emptied, OthersStay, OnlyBatches, AllSent, Batches, VisitDid, Swept, SweptWell, Along;
      var groups := Gather(cards, now);
      delivered, visited := [], map[];
      var todo := groups.Keys;
      StillFresh(groups, rows, cards);
      NothingMoved(rows);
      assert trace[|trace|..] == [];
      while todo != {}
        invariant todo <= groups.Keys && Kept(rows, trace) && old(trace) <= trace
        invariant forall g | g in todo :: AllFresh(rows, groups[g])
        invariant Along(old(rows), rows, visited, trace[|old(trace)|..], delivered)
        invariant visited.Keys == groups.Keys - todo && RoundsOf(visited, groups, old(rows), rows)
        decreases todo
      {
        var g :| g in todo;
        todo := todo - {g};
        ghost var before, sofar := rows, trace;
        var some;
        ghost var round;
        ok, some, round := Visit(cards[g.0], groups[g]);
        VisitStops(old(rows), before, rows, visited, g, round, sofar[|old(trace)|..], sofar, trace, delivered);
        assert trace[|old(trace)|..] == sofar[|old(trace)|..] + trace[|sofar|..];
        VisitMoved(sofar, trace, before, rows, round);
        if round.Some? { OthersFresh(groups, before, rows, cards, g, round.value, todo); }
        if !ok { return false, delivered, visited[g := round]; }
        RoundsMore(visited, groups, old(rows), before, rows, cards, g, round);
        VisitGoesOn(old(rows), before, rows, visited, g, round, sofar[|old(trace)|..], sofar, trace, delivered, some);
        visited := visited[g := round];
        delivered := delivered + some;
      }
      ok := true;
      AlongMeans(old(rows), rows, visited, trace[|old(trace)|..], delivered);
      EveryRound(visited, groups, old(rows), rows, cards, now, trace[|old(trace)|..]);
    }

    /** Marking rows attempted, oldest deliverable first, until the batch is full. */
    method Claim(sorted: seq<Entry>, unread: map<string, string>) returns (ok: bool, ready: seq<Entry>)
      requires Kept(rows, trace) && Distinct(sorted)
      requires forall e | e in sorted :: Fresh(rows, e)
      modifies this`rows
      ensures Kept(rows, trace) && rows.Keys == old(rows).Keys
      ensures Settled(old(rows), rows, Pick(sorted, unread, BATCH))
      ensures ok ==> ready == Pick(sorted, unread, BATCH)
      ensures ok ==> forall e | e in ready :: Taken(rows, trace, e)
    {
      hide Kept, Live, Deliverable, Taken, Marked, Keys, Settled;
      ready := [];
      MarkedNone(rows);
      for i := 0 to |sorted|
        invariant Kept(rows, trace) && rows.Keys == old(rows).Keys && |ready| <= BATCH
        invariant Pick(sorted, unread, BATCH) == ready + Pick(sorted[i..], unread, BATCH - |ready|)
        invariant Marked(old(rows), rows, Keys(ready))
        invariant forall e | e in ready :: Taken(rows, trace, e)
        invariant forall e | e in sorted[i..] :: Fresh(rows, e)
      {
        var e := sorted[i];
        assert sorted[i..] == [e] + sorted[i + 1..] && e in sorted[i..];
        if |ready| == BATCH { break; }
        PickStep(ready, e, sorted[i + 1..], unread);
        if !Deliverable(e, unread) { continue; }
        var kept, raised: bool := *, *;
        if !kept {
          MarkedSettled(old(rows), rows, ready, [e] + Pick(sorted[i + 1..], unread, BATCH - |ready| - 1));
          return false, [];
        }
        ClaimOne(old(rows), rows, trace, ready, e, sorted, i);
        rows := rows[e.key := e.row.(attempted := true)];
        if raised {
          MarkedSettled(old(rows), rows, ready + [e], Pick(sorted[i + 1..], unread, BATCH - |ready| - 1));
          return false, [];
        }
        ready := ready + [e];
      }
      ok := true;
      MarkedSettled(old(rows), rows, ready, []);
    }

    /** Removing the files of a delivered batch; stopping part way when one cannot be removed. */
    method Unlink(ready: seq<Entry>) returns (ok: bool)
      requires Kept(rows, trace)
      modifies this`rows
      ensures Kept(rows, trace)
      ensures forall key :: key in rows ==> key in old(rows) && rows[key] == old(rows)[key]
      ensures forall key | key in old(rows) && key !in rows :: key in Keys(ready)
      ensures ok ==> Keys(ready) !! rows.Keys
    {
      hide Kept;
      for i := 0 to |ready|
        invariant Kept(rows, trace)
        invariant forall key :: key in rows ==> key in old(rows) && rows[key] == old(rows)[key]
        invariant forall key | key in old(rows) && key !in rows :: key in Keys(ready)
        invariant forall k | 0 <= k < i :: ready[k].key !in rows
      {
        var raised: bool := *;
        if raised { return false; }
        KeptLess(rows, trace, ready[i].key);
        assert ready[i] in ready;
        rows := rows - {ready[i].key};
      }
      ok := true;
    }
  }
}
