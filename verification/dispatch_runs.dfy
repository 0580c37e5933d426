/** What no run of `go`, `repool` and `defer` can do to an item, whatever the tracker does in between. */
module DispatchRuns {
  import opened Basics
  import opened TextStrip
  import opened ResumeMarkers
  import opened DeferralNotes
  import opened WorkItem
  import opened Dispatch
  import opened Defer

  datatype Call = GoCall(agent: string, reassign: bool) | RepoolCall | DeferCall(req: Request)

  /** The contract of each call, as a step of the row. */
  ghost predicate StepOf(cal: Calendar, call: Call, r: Row, r': Row) {
    match call
    case GoCall(agent, reassign) => GoStep(r, agent, reassign, r')
    case RepoolCall => RepoolStep(r, r')
    case DeferCall(req) => DeferStep(cal, r, req, r')
  }

  ghost predicate IsRun(cal: Calendar, calls: seq<Call>, rows: seq<Row>) {
    |rows| == |calls| + 1 && forall i | 0 <= i < |calls| :: StepOf(cal, calls[i], rows[i], rows[i + 1])
  }

  lemma {:induction false} StripRightTwice(s: string)
    ensures StripRight(StripRight(s)) == StripRight(s) && StripRight(s) <= s
  {
    if s != "" && IsSpace(s[|s| - 1]) { StripRightTwice(s[..|s| - 1]); }
  }

  lemma StripTwice(s: string)
    ensures Strip(Strip(s)) == Strip(s)
  {
    var t := SkipSpace(s);
    StripRightTwice(t);
    if StripRight(t) != "" { assert StripRight(t)[0] == t[0]; }
  }

  /** Closed is terminal. */
  lemma {:induction false} ClosedStaysClosed(cal: Calendar, calls: seq<Call>, rows: seq<Row>, i: nat, j: nat)
    requires IsRun(cal, calls, rows) && i <= j < |rows| && rows[i].status == "closed"
    ensures rows[j] == rows[i]
    decreases j
  {
    if i < j {
      ClosedStaysClosed(cal, calls, rows, i, j - 1);
      assert StepOf(cal, calls[j - 1], rows[j - 1], rows[j]);
    }
  }

  /** Only a deferral overrules a block. */
  lemma {:induction false} BlockedLeavesOnlyByDefer(cal: Calendar, calls: seq<Call>, rows: seq<Row>, i: nat, j: nat)
    requires IsRun(cal, calls, rows) && i <= j < |rows| && rows[i].status == "blocked"
    requires forall k | i <= k < j :: !calls[k].DeferCall?
    ensures rows[j] == rows[i]
    decreases j
  {
    if i < j {
      BlockedLeavesOnlyByDefer(cal, calls, rows, i, j - 1);
      assert StepOf(cal, calls[j - 1], rows[j - 1], rows[j]);
    }
  }

  lemma HolderStep(cal: Calendar, call: Call, r: Row, r': Row)
    requires StepOf(cal, call, r, r') && Strip(r.assignee) != ""
    requires !call.RepoolCall? && !(call.GoCall? && call.reassign)
    ensures Strip(r'.assignee) == Strip(r.assignee)
  {
    StripTwice(r.assignee);
  }

  /** A holder keeps the item until somebody reassigns or repools it. */
  lemma {:induction false} HolderKeepsItem(cal: Calendar, calls: seq<Call>, rows: seq<Row>, i: nat, j: nat)
    requires IsRun(cal, calls, rows) && i <= j < |rows| && Strip(rows[i].assignee) != ""
    requires forall k | i <= k < j :: !calls[k].RepoolCall? && !(calls[k].GoCall? && calls[k].reassign)
    ensures Strip(rows[j].assignee) == Strip(rows[i].assignee)
    decreases j
  {
    hide Strip, StepOf;
    if i < j {
      HolderKeepsItem(cal, calls, rows, i, j - 1);
      HolderStep(cal, calls[j - 1], rows[j - 1], rows[j]);
    }
  }

  /** The deferral that hid the item stored how it comes back. */
  ghost predicate CanComeBack(cal: Calendar, r: Row, c: Choice) {
    Testable(c.active) && UsableDate(cal, c.active) && OneCondition(NotesText(r), c.active)
    && DateStored(cal, c.date, r.deferUntil)
  }

  /** Work that goes out of sight has exactly one testable way back in its notes, the one that the
      call chose from the row before, and the date that goes with it. */
  lemma HiddenWorkCanComeBack(cal: Calendar, calls: seq<Call>, rows: seq<Row>, i: nat)
    requires IsRun(cal, calls, rows) && i < |calls|
    requires rows[i].status != "deferred" && rows[i + 1].status == "deferred"
    ensures calls[i].DeferCall? && Choose(cal, rows[i], calls[i].req).Some?
    ensures CanComeBack(cal, rows[i + 1], Choose(cal, rows[i], calls[i].req).value)
    ensures LeavesCondition(cal, rows[i], calls[i].req, rows[i + 1])
    ensures LeavesDeadline(cal, rows[i], calls[i].req, rows[i + 1])
  {
    hide Staged, OneCondition, CanonicalReason, DateStored;
    assert StepOf(cal, calls[i], rows[i], rows[i + 1]);
    var c := Choose(cal, rows[i], calls[i].req).value;
    StageHolds(cal, c, rows[i + 1]);
    StagedMeans(cal, rows[i], calls[i].req, rows[i + 1]);
  }

  lemma StageHolds(cal: Calendar, c: Choice, r: Row)
    requires Staged(cal, c, r)
    ensures OneCondition(NotesText(r), c.active) && DateStored(cal, c.date, r.deferUntil)
  {
  }
}
