/**
 `comment_closed` of shantytown/cost.py: closing receipts posted to a tracker that may take a comment
 and still fail, with the body written ahead and two spaced absent reads before the same body goes again.
 */
module CostReceipts {
  import opened Basics

  type Bead = string
  type Digest = int

  const SPACING: nat := 5

  datatype Receipt = Receipt(digest: Digest, body: string)

  /** One entry of the pending file. */
  datatype Pending = Pending(receipt: Receipt, absentReads: nat, lastRead: int)

  datatype Event =
    | Read(bead: Bead, closed: bool, seen: set<Digest>)     // what a successful read of the item showed
    | Counted(bead: Bead, at: int)                           // an absent read entered in the file
    | Posted(bead: Bead, receipt: Receipt, at: int)          // handed to the tracker; `at` is the stamp written ahead

  // ---------- what a history says about one item ----------

  datatype Look = Look(closed: bool, seen: set<Digest>)

  /** The last post, whether a read has shown it since, how many spaced absent reads have been entered since
      and the stamp of the last, what the last read showed, and whether that read may still be entered. */
  datatype Episode = Episode(post: Option<Receipt>, confirmed: bool, absent: nat, stamp: int, look: Option<Look>,
                             unused: bool)

  function Step(ep: Episode, e: Event): Episode {
    match e
    case Read(_, closed, seen) =>
      var shown := ep.post.Some? && ep.post.value.digest in seen;
      ep.(look := Some(Look(closed, seen)), unused := true, confirmed := ep.confirmed || shown)
    case Counted(_, at) =>
      if ep.unused && ep.post.Some? && LooksAbsent(ep.look, ep.post.value) && at >= ep.stamp + SPACING
      then ep.(absent := ep.absent + 1, stamp := at, unused := false)
      else ep.(unused := false)
    case Posted(_, receipt, at) => Episode(Some(receipt), false, 0, at, ep.look, false)
  }

  predicate LooksAbsent(look: Option<Look>, receipt: Receipt) {
    look.Some? && look.value.closed && receipt.digest !in look.value.seen
  }

  function History(trace: seq<Event>, bead: Bead): Episode {
    if trace == [] then Episode(None, false, 0, 0, None, false)
    else
      var before := History(trace[..|trace| - 1], bead);
      var e := trace[|trace| - 1];
      if e.bead == bead then Step(before, e) else before
  }

  /** A post may follow: the last read found the item closed and the receipt absent, and the post before
      has been seen, or this is the very same receipt after two spaced absent reads. */
  predicate MayPost(ep: Episode, receipt: Receipt) {
    && LooksAbsent(ep.look, receipt)
    && (ep.post.None? || ep.confirmed || (ep.post == Some(receipt) && ep.absent >= 2))
  }

  ghost predicate Legal(trace: seq<Event>) {
    forall j | 0 <= j < |trace| && trace[j].Posted? :: MayPost(History(trace[..j], trace[j].bead), trace[j].receipt)
  }

  /** What the pending file remembers of a history: a post nobody has seen is in it, with its body,
      and the file counts no absent read the history does not. */
  ghost predicate Remembers(file: map<Bead, Pending>, trace: seq<Event>) {
    forall bead :: RemembersOne(file, bead, History(trace, bead))
  }

  predicate RemembersOne(file: map<Bead, Pending>, bead: Bead, ep: Episode) {
    ep.post.Some? && !ep.confirmed ==>
      && bead in file && file[bead].receipt == ep.post.value
      && file[bead].lastRead >= ep.stamp && file[bead].absentReads <= ep.absent
  }

  lemma HistoryAppend(trace: seq<Event>, e: Event, bead: Bead)
    ensures History(trace + [e], bead) == if e.bead == bead then Step(History(trace, bead), e) else History(trace, bead)
  {
    assert (trace + [e])[..|trace|] == trace;
  }

  lemma LegalAppend(trace: seq<Event>, e: Event)
    requires Legal(trace) && (e.Posted? ==> MayPost(History(trace, e.bead), e.receipt))
    ensures Legal(trace + [e])
  {
    hide History, MayPost;
    var all := trace + [e];
    forall j | 0 <= j < |all| && all[j].Posted? ensures MayPost(History(all[..j], all[j].bead), all[j].receipt) {
      assert all[..j] == trace[..j];
      assert j < |trace| ==> all[j] == trace[j];
      assert trace[..|trace|] == trace;
    }
  }

  lemma RemembersAppend(file: map<Bead, Pending>, trace: seq<Event>, e: Event, file': map<Bead, Pending>)
    requires Remembers(file, trace) && file' - {e.bead} == file - {e.bead}
    requires RemembersOne(file', e.bead, Step(History(trace, e.bead), e))
    ensures Remembers(file', trace + [e])
  {
    hide Step, History;
    forall bead ensures RemembersOne(file', bead, History(trace + [e], bead)) {
      HistoryAppend(trace, e, bead);
      assert RemembersOne(file, bead, History(trace, bead));
      if bead != e.bead {
        assert bead in file' <==> bead in file' - {e.bead};
        assert bead in file <==> bead in file - {e.bead};
        assert bead in file ==> (file - {e.bead})[bead] == file[bead];
        assert bead in file' ==> (file' - {e.bead})[bead] == file'[bead];
      }
    }
  }

  lemma AfterRead(file: map<Bead, Pending>, trace: seq<Event>, bead: Bead, look: Look)
    requires Legal(trace) && Remembers(file, trace)
    ensures var trace' := trace + [Read(bead, look.closed, look.seen)];
      Legal(trace') && Remembers(file, trace') && Fresh(History(trace', bead), look) && History(trace', bead).unused
  {
    hide Legal, History;
    var e := Read(bead, look.closed, look.seen);
    LegalAppend(trace, e);
    HistoryAppend(trace, e, bead);
    assert RemembersOne(file, bead, History(trace, bead));
    hide Remembers;
    RemembersAppend(file, trace, e, file);
  }

  /** The last read is this one, and it has been taken into account. */
  predicate Fresh(ep: Episode, look: Look) {
    ep.look == Some(look) && (ep.post.Some? && ep.post.value.digest in look.seen ==> ep.confirmed)
  }

  lemma AfterSeen(file: map<Bead, Pending>, trace: seq<Event>, bead: Bead, look: Look)
    requires Remembers(file, trace) && Fresh(History(trace, bead), look)
    requires bead in file && file[bead].receipt.digest in look.seen
    ensures Remembers(file - {bead}, trace)
  {
    hide History;
    forall b ensures RemembersOne(file - {bead}, b, History(trace, b)) {
      assert RemembersOne(file, b, History(trace, b));
    }
  }

  lemma AfterCount(file: map<Bead, Pending>, trace: seq<Event>, bead: Bead, look: Look, more: Pending)
    requires Legal(trace) && Remembers(file, trace) && Fresh(History(trace, bead), look) && History(trace, bead).unused
    requires bead in file && LooksAbsent(Some(look), file[bead].receipt)
    requires more == Pending(file[bead].receipt, file[bead].absentReads + 1, more.lastRead)
    requires more.lastRead >= file[bead].lastRead + SPACING
    ensures var file', trace' := file[bead := more], trace + [Counted(bead, more.lastRead)];
      Legal(trace') && Remembers(file', trace') && Fresh(History(trace', bead), look)
  {
    hide Legal, History;
    var e := Counted(bead, more.lastRead);
    LegalAppend(trace, e);
    HistoryAppend(trace, e, bead);
    assert RemembersOne(file, bead, History(trace, bead));
    hide Remembers;
    assert file[bead := more] - {bead} == file - {bead};
    RemembersAppend(file, trace, e, file[bead := more]);
  }

  lemma BeforePost(file: map<Bead, Pending>, trace: seq<Event>, bead: Bead, look: Look, receipt: Receipt, stamp: int)
    requires Remembers(file, trace) && Fresh(History(trace, bead), look) && LooksAbsent(Some(look), receipt)
    requires bead in file ==>
      file[bead].receipt == receipt && file[bead].absentReads >= 2 && stamp >= file[bead].lastRead
    ensures Remembers(file[bead := Pending(receipt, 0, stamp)], trace) && MayPost(History(trace, bead), receipt)
  {
    hide History;
    assert RemembersOne(file, bead, History(trace, bead));
    forall b ensures RemembersOne(file[bead := Pending(receipt, 0, stamp)], b, History(trace, b)) {
      assert RemembersOne(file, b, History(trace, b));
    }
  }

  lemma AfterPost(file: map<Bead, Pending>, trace: seq<Event>, bead: Bead, receipt: Receipt, stamp: int)
    requires Legal(trace) && Remembers(file, trace) && MayPost(History(trace, bead), receipt)
    requires bead in file && file[bead] == Pending(receipt, 0, stamp)
    ensures var trace' := trace + [Posted(bead, receipt, stamp)];
      Legal(trace') && Remembers(file, trace')
  {
    hide Legal, History, MayPost;
    var e := Posted(bead, receipt, stamp);
    LegalAppend(trace, e);
    hide Remembers;
    RemembersAppend(file, trace, e, file);
  }

  // ---------- what a legal history means ----------

  /** Between two posts for one item that no read in between has shown: the same receipt, and two reads that
      found the item closed and the receipt absent, each entered at least five seconds after the stamp before. */
  lemma NoEarlyRepost(trace: seq<Event>, i: nat, j: nat) returns (w: Witness)
    requires Legal(trace) && i < j < |trace|
    requires trace[i].Posted? && trace[j].Posted? && trace[i].bead == trace[j].bead
    requires Unshown(trace, i, j)
    ensures trace[j].receipt == trace[i].receipt
    ensures i < w.read1 < w.entry1 < w.read2 < w.entry2 < j
    ensures AbsentRead(trace, i, w.read1) && AbsentRead(trace, i, w.read2)
    ensures Entered(trace, i, w.entry1, trace[i].at) && Entered(trace, i, w.entry2, trace[w.entry1].at)
  {
    hide History;
    var ep;
    ep, w := SinceThen(trace, i, j);
    assert MayPost(History(trace[..j], trace[j].bead), trace[j].receipt);
  }

  /** Two absent reads and the entries they were given, and the read that may be entered next. */
  datatype Witness = Witness(read1: nat, entry1: nat, read2: nat, entry2: nat, last: nat)

  /** After the post at `i` this item is not posted before `j`, and no read shows the post. */
  ghost predicate Unshown(trace: seq<Event>, i: nat, j: nat)
    requires i < j <= |trace| && trace[i].Posted?
  {
    forall k | i < k < j && trace[k].bead == trace[i].bead ::
      !trace[k].Posted? && (trace[k].Read? ==> trace[i].receipt.digest !in trace[k].seen)
  }

  /** A read of the item posted at `i` that found it closed and the receipt absent. */
  ghost predicate AbsentRead(trace: seq<Event>, i: nat, k: nat)
    requires i < |trace| && trace[i].Posted?
  {
    && k < |trace| && trace[k].Read? && trace[k].bead == trace[i].bead
    && trace[k].closed && trace[i].receipt.digest !in trace[k].seen
  }

  /** An absent read of that item entered at `k`, at least five seconds after a stamp. */
  ghost predicate Entered(trace: seq<Event>, i: nat, k: nat, stamp: int)
    requires i < |trace|
  {
    k < |trace| && trace[k].Counted? && trace[k].bead == trace[i].bead && trace[k].at >= stamp + 5
  }

  lemma {:induction false} SinceThen(trace: seq<Event>, i: nat, j: nat) returns (ep: Episode, w: Witness)
    requires i < j <= |trace| && trace[i].Posted? && Unshown(trace, i, j)
    ensures ep == History(trace[..j], trace[i].bead) && ep.post == Some(trace[i].receipt) && !ep.confirmed
    ensures ep.absent == 0 ==> ep.stamp == trace[i].at
    ensures ep.absent >= 1 ==> i < w.read1 < w.entry1 < j
    ensures ep.absent >= 1 ==> AbsentRead(trace, i, w.read1) && Entered(trace, i, w.entry1, trace[i].at)
    ensures ep.absent == 1 ==> ep.stamp == trace[w.entry1].at
    ensures ep.absent >= 2 ==> w.entry1 < w.read2 < w.entry2 < j
    ensures ep.absent >= 2 ==> AbsentRead(trace, i, w.read2) && Entered(trace, i, w.entry2, trace[w.entry1].at)
    ensures ep.unused ==> i < w.last < j && (ep.absent >= 1 ==> w.entry1 < w.last)
    ensures ep.unused && LooksAbsent(ep.look, trace[i].receipt) ==> AbsentRead(trace, i, w.last)
    decreases j
  {
    hide History;
    var e := trace[j - 1];
    assert trace[..j] == trace[..j - 1] + [e];
    HistoryAppend(trace[..j - 1], e, trace[i].bead);
    ep := History(trace[..j], trace[i].bead);
    w := Witness(0, 0, 0, 0, 0);
    if i < j - 1 {
      var before;
      before, w := SinceThen(trace, i, j - 1);
      if e.bead == trace[i].bead {
        if e.Read? { w := w.(last := j - 1); }
        if e.Counted? && before.absent == 0 { w := w.(read1 := w.last, entry1 := j - 1); }
        if e.Counted? && before.absent == 1 { w := w.(read2 := w.last, entry2 := j - 1); }
      }
    }
  }

  // ---------- what one call does ----------

  predicate PostedAndSeen(bead: Bead, receipt: Receipt, events: seq<Event>) {
    && |events| == 2 && events[0].Posted? && events[0].bead == bead && events[0].receipt == receipt
    && events[1].Read? && events[1].bead == bead && receipt.digest in events[1].seen
  }

  /** What a call begun at `from` that did not raise has done about one closed item: these are its events, in order. */
  predicate Attended(prior: Option<Pending>, bead: Bead, fresh_: Receipt, events: seq<Event>, file: map<Bead, Pending>,
                     from: int) {
    var receipt := if prior.Some? then prior.value.receipt else fresh_;
    && events != [] && events[0].Read? && events[0].bead == bead
    && var absent := receipt.digest !in events[0].seen;
    && (!events[0].closed ==> |events| == 1)
    && (events[0].closed && !absent ==> |events| == 1 && bead !in file)
    && (events[0].closed && absent && prior.None? ==> PostedAndSeen(bead, receipt, events[1..]) && bead !in file)
    && (events[0].closed && absent && prior.Some? ==> Retried(prior.value, bead, events, file, from))
  }

  /** The part of a call for an item whose post nobody has seen, after a read that did not show it: too early,
      the first entry, or the second and the post. */
  predicate Retried(prior: Pending, bead: Bead, events: seq<Event>, file: map<Bead, Pending>, from: int)
    requires events != []
  {
    if |events| == 1 then from < prior.lastRead + 5
    else
      && events[1].Counted? && events[1].bead == bead && events[1].at >= prior.lastRead + 5
      && if prior.absentReads == 0 then |events| == 2
         else PostedAndSeen(bead, prior.receipt, events[2..]) && bead !in file
  }

  // ---------- the tracker, the file and the clock ----------

  predicate ReadSince(trace: seq<Event>, from: nat, bead: Bead) {
    exists k | from <= k < |trace| :: trace[k].Read? && trace[k].bead == bead
  }

  /** Every call may raise, with its effect done or not; a post is taken as handed over either way.
      Others may reopen the item or change its comments between any two reads. */
  class Desk {
    var file: map<Bead, Pending>
    var clock: int
    ghost var trace: seq<Event>

    /** Whatever an earlier program left in the file. */
    constructor (left: map<Bead, Pending>)
      ensures Valid() && file == left && trace == []
    {
      file, clock, trace := left, 0, [];
    }

    ghost predicate Valid() reads this {
      Legal(trace) && Remembers(file, trace)
    }

    method Now() returns (now: int)
      modifies this`clock
      ensures now == clock >= old(clock)
    {
      var tick: int := *;
      if tick > 0 { clock := clock + tick; }
      return clock;
    }

    /** `show`: None when the read failed. */
    method Show(bead: Bead) returns (look: Option<Look>)
      modifies this`trace
      ensures look.None? ==> trace == old(trace)
      ensures look.Some? ==> trace == old(trace) + [Read(bead, look.value.closed, look.value.seen)]
    {
      var ok: bool := *;
      if !ok { return None; }
      var closed: bool, seen: set<Digest> := *, *;
      trace := trace + [Read(bead, closed, seen)];
      return Some(Look(closed, seen));
    }

    /** `_atomic_json`: all of it or nothing; `ok` is false when it raised or the program died then.
        `entry` is what the file now records. */
    method Save(pending: map<Bead, Pending>, ghost entry: seq<Event>) returns (ok: bool)
      modifies this`file, this`trace
      ensures (file == pending && trace == old(trace) + entry) || (!ok && file == old(file) && trace == old(trace))
      ensures entry == [] ==> trace == old(trace)
    {
      assert trace + [] == trace;
      var kept: bool := *;
      if !kept { return false; }
      file := pending;
      trace := trace + entry;
      ok := *;
    }

    /** `br comments add`: whether it raised says nothing about whether the comment is there. */
    method Post(bead: Bead, receipt: Receipt, ghost at: int) returns (ok: bool)
      modifies this`trace
      ensures trace == old(trace) + [Posted(bead, receipt, at)]
    {
      trace := trace + [Posted(bead, receipt, at)];
      ok := *;
    }

    /** One closed item of `comment_closed`. `ok` is false when the call raised, wherever it did;
        dying there leaves the same file. */
    method CommentOne(bead: Bead, fresh_: Receipt, pending: map<Bead, Pending>)
        returns (ok: bool, now_pending: map<Bead, Pending>)
      requires Valid() && pending == file
      modifies this
      ensures Valid() && old(trace) <= trace && clock >= old(clock)
      ensures ok ==> now_pending == file
      ensures ok ==>
        Attended(if bead in old(file) then Some(old(file)[bead])
                 else None, bead, fresh_, trace[|old(trace)|..], file, old(clock))
    {
      hide Legal, Remembers, Fresh, History;
      now_pending := pending;
      var prior := if bead in pending then Some(pending[bead]) else None;
      var receipt := if prior.Some? then prior.value.receipt else fresh_;
      var look := Show(bead);
      if look.None? { return false, now_pending; }
      AfterRead(file, old(trace), bead, look.value);
      ghost var read := Read(bead, look.value.closed, look.value.seen);
      assert trace[|old(trace)|..] == [read];
      if !look.value.closed { return true, now_pending; }
      if receipt.digest in look.value.seen {
        if prior.Some? {
          AfterSeen(file, trace, bead, look.value);
          now_pending := pending - {bead};
          ok := Save(now_pending, []);
        } else {
          ok := true;
        }
        return ok, now_pending;
      }
      if prior.Some? {
        var now := Now();
        if now - prior.value.lastRead < SPACING { return true, now_pending; }
        now := Now();
        var more := Pending(receipt, prior.value.absentReads + 1, now);
        AfterCount(file, trace, bead, look.value, more);
        now_pending := pending[bead := more];
        ok := Save(now_pending, [Counted(bead, now)]);
        if !ok { return false, now_pending; }
        assert trace[|old(trace)|..] == [read, Counted(bead, now)];
        if more.absentReads < 2 { return true, now_pending; }
      }
      ghost var sofar := trace;
      ok, now_pending := PostNow(bead, receipt, now_pending, look.value);
      assert trace[|old(trace)|..] == sofar[|old(trace)|..] + trace[|sofar|..];
    }

    /** The body written ahead, the post, and the read that may confirm it. */
    method PostNow(bead: Bead, receipt: Receipt, pending: map<Bead, Pending>, ghost look: Look)
        returns (ok: bool, now_pending: map<Bead, Pending>)
      requires Valid() && pending == file && Fresh(History(trace, bead), look) && LooksAbsent(Some(look), receipt)
      requires bead in file ==>
        file[bead].receipt == receipt && file[bead].absentReads >= 2 && file[bead].lastRead <= clock
      modifies this
      ensures Valid() && old(trace) <= trace && clock >= old(clock)
      ensures ok ==> now_pending == file && bead !in file
      ensures ok ==> PostedAndSeen(bead, receipt, trace[|old(trace)|..])
    {
      hide Legal, Remembers, Fresh, History, LooksAbsent;
      var stamp := Now();
      BeforePost(file, trace, bead, look, receipt, stamp);
      now_pending := pending[bead := Pending(receipt, 0, stamp)];
      ok := Save(now_pending, []);
      assert old(trace) + [] == old(trace);
      if !ok { return false, now_pending; }
      AfterPost(file, trace, bead, receipt, stamp);
      ok := Post(bead, receipt, stamp);
      if !ok { return false, now_pending; }
      ghost var posted := trace;
      var seen := Show(bead);
      if seen.None? { return false, now_pending; }
      AfterRead(file, posted, bead, seen.value);
      if receipt.digest !in seen.value.seen { return false, now_pending; }
      AfterSeen(file, trace, bead, seen.value);
      now_pending := now_pending - {bead};
      ok := Save(now_pending, []);
      assert trace == posted + [Read(bead, seen.value.closed, seen.value.seen)];
      assert trace[|old(trace)|..] == [Posted(bead, receipt, stamp), Read(bead, seen.value.closed, seen.value.seen)];
    }

    /** `comment_closed`: the closed items that have a receipt, in turn, each looked at once; the first
        failure ends the call. */
    method CommentClosed(items: seq<(Bead, bool, Option<Receipt>)>) returns (ok: bool)
      requires Valid()
      modifies this
      ensures Valid() && old(trace) <= trace
      ensures ok ==>
        forall i | 0 <= i < |items| && items[i].1 && items[i].2.Some? :: ReadSince(trace, |old(trace)|, items[i].0)
    {
      hide Legal, Remembers;
      var pending := file;
      for i := 0 to |items|
        invariant Valid() && pending == file && old(trace) <= trace
        invariant forall k | 0 <= k < i && items[k].1 && items[k].2.Some? :: ReadSince(trace, |old(trace)|, items[k].0)
      {
        var (bead, closed, receipt) := items[i];
        ghost var sofar := trace;
        if closed && receipt.Some? {
          ok, pending := CommentOne(bead, receipt.value, pending);
          if !ok { return; }
          assert trace[|sofar|..][0] == trace[|sofar|];
        }
        forall b | ReadSince(sofar, |old(trace)|, b) ensures ReadSince(trace, |old(trace)|, b) {
          ReadStill(sofar, trace, |old(trace)|, b);
        }
      }
      ok := true;
    }
  }

  lemma ReadStill(some: seq<Event>, more: seq<Event>, from: nat, bead: Bead)
    requires some <= more && ReadSince(some, from, bead)
    ensures ReadSince(more, from, bead)
  {
    var k :| from <= k < |some| && some[k].Read? && some[k].bead == bead;
    assert more[k] == some[k];
  }
}
