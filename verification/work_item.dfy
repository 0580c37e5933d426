/**
 One work item as the dispatcher sees it, and a tracker and a pane that may misbehave.
 A write may take any subset of its fields, and then succeed or raise; a read tells the
 truth or raises; a send may be lost. The trace and the past are kept for the proofs.
 */
module WorkItem {
  import opened Basics
  import opened ResumeMarkers

  /** The fields the dispatcher reads and writes; "" is an absent assignee or deadline. */
  datatype Row = Row(status: string, assignee: string, notes: Option<string>, deferUntil: string,
                     blockerKind: string, openBlockers: nat)

  /** One update: the fields it names. */
  datatype Fields = Fields(status: Option<string>, assignee: Option<string>, deferUntil: Option<string>,
                           reason: Option<string>, blockerKind: Option<string>)

  const NO_FIELDS := Fields(None, None, None, None, None)

  datatype Event =
    | Read(row: Option<Row>)      // None: the read raised
    | Wrote(fields: Fields, raised: bool)
    | Sent
    | Evidence(seen: bool)        // did the pane show the work

  function NotesText(r: Row): string {
    if r.notes.None? then "" else r.notes.value
  }

  /** `r'` is `r` after some of the fields of one update took effect. The backend
      spells a deadline its own way, so a written deadline may read back as anything. */
  ghost predicate Partial(r: Row, u: Fields, r': Row) {
    && (r'.status == r.status || Some(r'.status) == u.status)
    && (r'.assignee == r.assignee || Some(r'.assignee) == u.assignee)
    && (r'.deferUntil == r.deferUntil || u.deferUntil.Some?)
    && (r'.notes == r.notes || (u.reason.Some? && r'.notes == Some(StoredNotes(r.notes, u.reason.value).0)))
    && (r'.blockerKind == r.blockerKind || Some(r'.blockerKind) == u.blockerKind)
    && r'.openBlockers == r.openBlockers
  }

  class World {
    var row: Row
    ghost var past: seq<Row>     // every state the row has been in
    ghost var trace: seq<Event>

    ghost predicate Valid() reads this {
      past != [] && past[|past| - 1] == row
    }

    constructor (r: Row)
      ensures Valid() && row == r && past == [r] && trace == []
    {
      row, past, trace := r, [r], [];
    }

    method Get() returns (r: Option<Row>)
      requires Valid()
      modifies this`trace
      ensures Valid()
      ensures trace == old(trace) + [Read(r)]
      ensures r.Some? ==> r.value == row
    {
      r := None;
      if * { r := Some(row); }
      trace := trace + [Read(r)];
    }

    method Update(u: Fields) returns (raised: bool)
      requires Valid()
      modifies this
      ensures Valid()
      ensures trace == old(trace) + [Wrote(u, raised)]
      ensures past == old(past) + [row] && Partial(old(row), u, row)
    {
      hide StoredNotes;
      raised := *;
      var r := row;
      if * { if u.status.Some? { r := r.(status := u.status.value); } }
      if * { if u.assignee.Some? { r := r.(assignee := u.assignee.value); } }
      if * { if u.deferUntil.Some? { var s: string := *; r := r.(deferUntil := s); } }
      if * { if u.reason.Some? { r := r.(notes := Some(StoredNotes(r.notes, u.reason.value).0)); } }
      if * { if u.blockerKind.Some? { r := r.(blockerKind := u.blockerKind.value); } }
      row := r;
      past := past + [r];
      trace := trace + [Wrote(u, raised)];
    }

    /** None: the send raised. True: the pane saw the very text submitted. */
    method Send() returns (observed: Option<bool>)
      requires Valid()
      modifies this`trace
      ensures Valid()
      ensures trace == old(trace) + [Sent] + (if observed.Some? then [Evidence(observed.value)] else [])
    {
      observed := None;
      if * { var b: bool := *; observed := Some(b); }
      trace := trace + [Sent] + (if observed.Some? then [Evidence(observed.value)] else []);
    }

    /** One look at the pane; None: the look raised. */
    method Capture() returns (seen: Option<bool>)
      requires Valid()
      modifies this`trace
      ensures Valid()
      ensures trace == old(trace) + (if seen.Some? then [Evidence(seen.value)] else [])
    {
      seen := None;
      if * { var b: bool := *; seen := Some(b); }
      trace := trace + (if seen.Some? then [Evidence(seen.value)] else []);
    }
  }
}
