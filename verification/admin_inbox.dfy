/**
 The routine queue of shantytown/admin_inbox.py: at most 256 rows on disk, one batch per recipient
 and sweep, one live attempt per row.
 */
module AdminInbox {
  import opened Basics
  import opened Sorting
  import TextOrder

  const CAPACITY: nat := 256
  const BATCH: nat := 20
  const LONGEST: nat := 900

  /** The hash of `[backend, recipient, id]` names a row's file. */
  datatype Key = Key(backend: string, recipient: string, id: string)

  datatype Row = Row(pane: string, host: Option<string>, body: string, created: int, due: int, attempted: bool,
                     retain: bool)

  datatype Card = Card(name: string, pane: string, host: Option<string>, retired: bool)

  datatype Entry = Entry(key: Key, row: Row)

  // ---------- one batch ----------

  /** Oldest first, then by id. */
  predicate Older(a: Entry, b: Entry) {
    a.row.created < b.row.created || (a.row.created == b.row.created && TextOrder.Less(a.key.id, b.key.id))
  }

  /** The reader still shows this message unread, with the body that was queued. */
  predicate Deliverable(e: Entry, unread: map<string, string>) {
    e.key.id in unread && unread[e.key.id] == e.row.body
  }

  /** The first deliverable entries, at most `left`. */
  function Pick(entries: seq<Entry>, unread: map<string, string>, left: nat): seq<Entry> {
    if entries == [] || left == 0 then []
    else if Deliverable(entries[0], unread) then [entries[0]] + Pick(entries[1..], unread, left - 1)
    else Pick(entries[1..], unread, left)
  }

  lemma {:induction false} PickMembers(entries: seq<Entry>, unread: map<string, string>, left: nat)
    ensures |Pick(entries, unread, left)| <= left
    ensures forall e | e in Pick(entries, unread, left) :: e in entries && Deliverable(e, unread)
  {
    if entries != [] && left > 0 {
      if Deliverable(entries[0], unread) {
        PickMembers(entries[1..], unread, left - 1);
      } else {
        PickMembers(entries[1..], unread, left);
      }
      assert forall e | e in entries[1..] :: e in entries;
    }
  }

  predicate Distinct(entries: seq<Entry>) {
    forall i, j | 0 <= i < j < |entries| :: entries[i].key != entries[j].key
  }

  lemma {:induction false} PickDistinct(entries: seq<Entry>, unread: map<string, string>, left: nat)
    requires Distinct(entries)
    ensures Distinct(Pick(entries, unread, left))
  {
    if entries != [] && left > 0 {
      if Deliverable(entries[0], unread) {
        PickDistinct(entries[1..], unread, left - 1);
        PickMembers(entries[1..], unread, left - 1);
        var rest := Pick(entries[1..], unread, left - 1);
        forall j | 0 <= j < |rest| ensures rest[j].key != entries[0].key {
          assert rest[j] in entries[1..];
        }
      } else {
        PickDistinct(entries[1..], unread, left);
      }
    }
  }

  /** A deliverable entry is picked, or the whole batch is picked from those before it. */
  lemma {:induction false} PickedOrFull(entries: seq<Entry>, unread: map<string, string>, left: nat, i: nat)
    requires i < |entries| && Deliverable(entries[i], unread)
    ensures entries[i] in Pick(entries, unread, left)
      || (|Pick(entries, unread, left)| == left && forall e | e in Pick(entries, unread, left) :: e in entries[..i])
  {
    if left > 0 && i > 0 {
      var rest := entries[1..];
      assert rest[i - 1] == entries[i] && forall e | e in rest[..i - 1] :: e in entries[..i];
      assert entries[0] in entries[..i];
      PickedOrFull(rest, unread, if Deliverable(entries[0], unread) then left - 1 else left, i - 1);
    }
  }

  // ---------- rounds ----------

  /** What one sweep saw of a group: its entries in order, and what the reader showed. */
  datatype Round = Round(entries: seq<Entry>, unread: map<string, string>)

  function Picked(r: Round): seq<Entry> {
    Pick(r.entries, r.unread, BATCH)
  }

  // ---------- the order ----------

  lemma OlderIsOrder()
    ensures WeakOrder(Older)
  {
    hide TextOrder.Less;
    forall a, b ensures Older(a, b) ==> !Older(b, a) { TextOrder.LessIsTotal(a.key.id, b.key.id); }
    forall a, b, c ensures !Older(b, a) && !Older(c, b) ==> !Older(c, a) {
      TextOrder.LessIsTotal(a.key.id, b.key.id);
      TextOrder.LessIsTotal(b.key.id, c.key.id);
      if TextOrder.Less(c.key.id, a.key.id) && TextOrder.Less(a.key.id, b.key.id) {
        TextOrder.LessChains(c.key.id, a.key.id, b.key.id);
      }
    }
  }

  /** Two rows of one recipient and backend never tie. */
  lemma OlderIsTotal(a: Entry, b: Entry)
    requires a.key.recipient == b.key.recipient && a.key.backend == b.key.backend && a.key != b.key
    ensures Older(a, b) || Older(b, a)
  {
    TextOrder.LessIsTotal(a.key.id, b.key.id);
  }
}
