/**
 `st go`, `st work repool` and `st work defer` of shantytown/dispatch.py, against a
 tracker and a pane that may do anything WorkItem allows.
 */
module Dispatch {
  import opened Basics
  import opened TextStrip
  import opened WorkItem

  // ---------- read-back ----------

  /** The text after the last slash. */
  function LastPart(s: string): (r: string)
    ensures '/' !in s ==> r == s
    ensures '/' !in r
  {
    if s == "" then ""
    else if '/' in s[1..] then LastPart(s[1..])
    else if s[0] == '/' then s[1..]
    else s
  }

  /** `_applied`. */
  predicate Applied(got: string, want: string) {
    var g, w := Strip(got), Strip(want);
    if w == "" then g == ""
    else if g == "" then false
    else g == w || LastPart(g) == LastPart(w)
  }

  predicate FieldApplied(got: string, want: Option<string>) {
    want.Some? ==> Applied(got, want.value)
  }

  /** Every field a dispatch writes reads back as asked for. */
  predicate AllApplied(r: Row, u: Fields) {
    FieldApplied(r.status, u.status) && FieldApplied(r.assignee, u.assignee) && FieldApplied(r.deferUntil, u.deferUntil)
  }

  /** The same text, or the same after the last slash in each. */
  ghost predicate Shows(got: string, want: string) {
    || Strip(got) == Strip(want)
    || (Strip(got) != "" && Strip(want) != ""
        && exists p, q, name :: EndsIn(Strip(got), p, name) && EndsIn(Strip(want), q, name))
  }

  /** `s` ends in this name after a slash, or is the name. */
  predicate EndsIn(s: string, front: string, name: string) {
    s == front + name && '/' !in name && (front == "" || front[|front| - 1] == '/')
  }

  lemma {:induction false} LastPartEnds(s: string) returns (front: string)
    ensures EndsIn(s, front, LastPart(s))
  {
    front := "";
    if s != "" && '/' in s[1..] {
      var rest := LastPartEnds(s[1..]);
      front := [s[0]] + rest;
      assert s == [s[0]] + s[1..];
      assert rest != "";
    } else if s != "" && s[0] == '/' {
      front := "/";
      assert s == "/" + s[1..];
    }
  }

  lemma SlashAfter(s: string, p: string, a: string, q: string)
    requires s == p + a && |p| < |q| && q <= s && q[|q| - 1] == '/'
    ensures '/' in a
  {
    assert a[|q| - 1 - |p|] == s[|q| - 1];
  }

  lemma OneEnd(s: string, p: string, a: string, q: string, b: string)
    requires EndsIn(s, p, a) && EndsIn(s, q, b)
    ensures a == b
  {
    if |p| < |q| { SlashAfter(s, p, a, q); }
    if |q| < |p| { SlashAfter(s, q, b, p); }
    assert a == s[|p|..] && b == s[|q|..];
  }

  /** A read-back counts as the value written exactly when it shows it. */
  lemma AppliedShows(got: string, want: string)
    ensures Applied(got, want) <==> Shows(got, want)
  {
    hide LastPart, Strip;
    var g, w := Strip(got), Strip(want);
    var p := LastPartEnds(g);
    var q := LastPartEnds(w);
    if g != "" && w != "" {
      if LastPart(g) == LastPart(w) { assert EndsIn(g, p, LastPart(g)) && EndsIn(w, q, LastPart(g)); }
      if p', q', name :| EndsIn(g, p', name) && EndsIn(w, q', name) {
        OneEnd(g, p, LastPart(g), p', name);
        OneEnd(w, q, LastPart(w), q', name);
      }
    }
  }

  // ---------- what the trace of one call must look like ----------

  function Count(es: seq<Event>, p: Event -> bool): nat {
    if es == [] then 0 else (if p(es[|es| - 1]) then 1 else 0) + Count(es[..|es| - 1], p)
  }

  function Sends(es: seq<Event>): nat {
    Count(es, (e: Event) => e.Sent?)
  }

  function Writes(es: seq<Event>): nat {
    Count(es, (e: Event) => e.Wrote?)
  }

  /** A write follows the event that licensed it (for `go`, positive evidence from the pane),
      or a read-back that proved the write before it lost. */
  ghost predicate WriteJustified(es: seq<Event>, i: nat, license: Event, u: Fields)
    requires i < |es|
  {
    es[i].Wrote? ==>
      && es[i].fields == u && i > 0
      && (es[i - 1] == license
          || (i > 1 && es[i - 2].Wrote? && !es[i - 2].raised
              && es[i - 1].Read? && es[i - 1].row.Some? && !AllApplied(es[i - 1].row.value, u)))
  }

  ghost predicate Disciplined(es: seq<Event>, license: Event, u: Fields) {
    forall i | 0 <= i < |es| :: WriteJustified(es, i, license, u)
  }

  lemma CountGrows(es: seq<Event>, e: Event, p: Event -> bool)
    ensures Count(es + [e], p) == Count(es, p) + (if p(e) then 1 else 0)
  {
    assert (es + [e])[..|es|] == es;
  }

  lemma NoEvents(license: Event, u: Fields)
    ensures Disciplined([], license, u) && Sends([]) == 0 && Writes([]) == 0
  {
  }

  lemma Grows(es: seq<Event>, e: Event, license: Event, u: Fields)
    requires Disciplined(es, license, u) && (e.Wrote? ==> e.fields == u && MayWrite(es, license, u))
    ensures Disciplined(es + [e], license, u)
    ensures Sends(es + [e]) == Sends(es) + (if e.Sent? then 1 else 0)
    ensures Writes(es + [e]) == Writes(es) + (if e.Wrote? then 1 else 0)
  {
    var fs := es + [e];
    forall i | 0 <= i < |fs| ensures WriteJustified(fs, i, license, u) {
      if i < |es| { assert WriteJustified(es, i, license, u); }
    }
    CountGrows(es, e, (x: Event) => x.Wrote?);
    CountGrows(es, e, (x: Event) => x.Sent?);
  }

  /** `es` ends where a write of `u` is allowed: at the licence, or with the last write proved lost. */
  ghost predicate MayWrite(es: seq<Event>, license: Event, u: Fields) {
    es != [] &&
    (es[|es| - 1] == license
     || (|es| > 1 && es[|es| - 2].Wrote? && !es[|es| - 2].raised
         && es[|es| - 1].Read? && es[|es| - 1].row.Some? && !AllApplied(es[|es| - 1].row.value, u)))
  }

  // ---------- go ----------

  const TRACK_ATTEMPTS: nat := 3
  const VERIFY_ATTEMPTS: nat := 5

  /** Why `plan` refuses a row; None when it goes on. */
  datatype Refusal = IsClosed | IsBlocked | HasOpenBlocker | AlreadyAssigned | NotAdmitted

  function PlanRefusal(r: Row, agent: string, reassign: bool, admitted: bool): Option<Refusal> {
    var holder := Strip(r.assignee);
    if r.status == "closed" then Some(IsClosed)
    else if r.status == "blocked" then Some(IsBlocked)
    else if r.openBlockers > 0 then Some(HasOpenBlocker)
    else if !reassign && holder != "" && holder != agent then Some(AlreadyAssigned)
    else if !admitted then Some(NotAdmitted)
    else None
  }

  function GoFields(r: Row, agent: string): Fields {
    NO_FIELDS.(status := Some("in_progress"), assignee := Some(agent),
               deferUntil := if r.deferUntil != "" then Some("") else None)
  }

  datatype GoOutcome =
    | Unread                       // the registry or tracker read raised
    | PlanRefused(why: Refusal)
    | TriageRefused
    | Previewed                    // a dry run
    | Raised                       // the send or the look at the pane raised
    | SendUnverified
    | Untracked                    // delivered, and no record says so
    | Dispatched(attempts: nat)

  ghost function Since(now: seq<Event>, before: seq<Event>): seq<Event>
    requires before <= now
  {
    now[|before|..]
  }

  /** `_track`: write, read back, and write again only after a read-back that disagrees.
      None: the write raised, the read raised, or three read-backs disagreed. */
  method Track(w: World, u: Fields, ghost start: seq<Event>, ghost license: Event) returns (attempt: Option<nat>)
    requires w.Valid() && start <= w.trace
    requires u.reason.None? && u.blockerKind.None?
    requires var es := Since(w.trace, start);
      Disciplined(es, license, u) && Writes(es) == 0 && es != [] && es[|es| - 1] == license
    modifies w
    ensures w.Valid() && start <= w.trace && old(w.trace) <= w.trace && old(w.past) <= w.past
    ensures var es := Since(w.trace, start);
      && Disciplined(es, license, u) && Writes(es) <= 3 && Sends(es) == old(Sends(Since(w.trace, start)))
      && (attempt.Some? ==>
            (1 <= attempt.value == Writes(es) && es != [] && es[|es| - 1] == Read(Some(w.row)) && AllApplied(w.row, u)))
    ensures forall i | |old(w.past)| <= i < |w.past| :: Partial(old(w.row), u, w.past[i])
  {
    hide AllApplied, Partial, Disciplined, Sends, Writes;
    var i := 0;
    ghost var row0 := w.row;
    PartialSelf(row0, u);
    while i < TRACK_ATTEMPTS
      invariant i <= TRACK_ATTEMPTS && w.Valid() && start <= w.trace && old(w.trace) <= w.trace && old(w.past) <= w.past
      invariant var es := Since(w.trace, start);
        && Disciplined(es, license, u) && Writes(es) == i && Sends(es) == old(Sends(Since(w.trace, start))) && es != []
        && MayWrite(es, license, u)
      invariant forall j | |old(w.past)| <= j < |w.past| :: Partial(row0, u, w.past[j])
      invariant Partial(row0, u, w.row)
    {
      ghost var es0 := Since(w.trace, start);
      ghost var before := w.row;
      var raised := w.Update(u);
      PartialTwice(row0, before, w.row, u);
      ghost var es1 := Since(w.trace, start);
      assert es1 == es0 + [Wrote(u, raised)];
      Grows(es0, Wrote(u, raised), license, u);
      if raised { return None; }
      var got := w.Get();
      assert Since(w.trace, start) == es1 + [Read(got)];
      Grows(es1, Read(got), license, u);
      i := i + 1;
      if got.None? { return None; }
      if AllApplied(got.value, u) { return Some(i); }
    }
    return None;
  }

  lemma PartialSelf(r: Row, u: Fields)
    ensures Partial(r, u, r)
  {
  }

  lemma PartialTwice(a: Row, b: Row, c: Row, u: Fields)
    requires u.reason.None? && Partial(a, u, b) && Partial(b, u, c)
    ensures Partial(a, u, c)
  {
  }

  function Nays(n: nat): (es: seq<Event>)
    ensures |es| == n
  {
    seq(n, _ => Evidence(false))
  }

  /** At most five looks: negative ones up to the first that shows the work, or to one that raised. */
  ghost predicate Looked(now: seq<Event>, before: seq<Event>, seen: Option<bool>) {
    var last := if seen == Some(true) then [Evidence(true)] else [];
    var n := |now| - |before| - |last|;
    && 0 <= n <= 5 && now == before + Nays(n) + last
    && (n == 5 <==> seen == Some(false))
  }

  /** `verify`: true only on positive evidence. None: a look raised. */
  method Verify(w: World, ghost u: Fields, ghost start: seq<Event>) returns (seen: Option<bool>)
    requires w.Valid() && start <= w.trace
    requires Disciplined(Since(w.trace, start), Evidence(true), u) && Writes(Since(w.trace, start)) == 0
    modifies w`trace
    ensures w.Valid() && start <= w.trace
    ensures var es := Since(w.trace, start);
      && Disciplined(es, Evidence(true), u) && Writes(es) == 0 && Sends(es) == old(Sends(Since(w.trace, start)))
      && (seen == Some(true) ==> es != [] && es[|es| - 1] == Evidence(true))
    ensures Looked(w.trace, old(w.trace), seen)
  {
    hide Disciplined, Sends, Writes;
    for i := 0 to VERIFY_ATTEMPTS
      invariant w.Valid() && start <= w.trace && w.trace == old(w.trace) + Nays(i)
      invariant var es := Since(w.trace, start);
        Disciplined(es, Evidence(true), u) && Writes(es) == 0 && Sends(es) == old(Sends(Since(w.trace, start)))
    {
      ghost var es0 := Since(w.trace, start);
      seen := w.Capture();
      if seen.None? { assert Since(w.trace, start) == es0; return; }
      assert Since(w.trace, start) == es0 + [Evidence(seen.value)];
      Grows(es0, Evidence(seen.value), Evidence(true), u);
      if seen.value { return; }
      assert Nays(i + 1) == Nays(i) + [Evidence(false)];
    }
    return Some(false);
  }

  /** The changes one call may make to the row, whatever the tracker did. */
  ghost predicate GoStep(r: Row, agent: string, reassign: bool, r': Row) {
    r' == r || (PlanRefusal(r, agent, reassign, true).None? && Partial(r, GoFields(r, agent), r'))
  }

  lemma TrackedShows(r: Row, before: Row, agent: string)
    requires AllApplied(r, GoFields(before, agent))
    ensures Shows(r.status, "in_progress") && Shows(r.assignee, agent)
    ensures before.deferUntil != "" ==> Strip(r.deferUntil) == ""
  {
    hide LastPart, Shows;
    AppliedShows(r.status, "in_progress");
    AppliedShows(r.assignee, agent);
    assert Strip("") == "";
  }

  lemma GoFieldsOnly(r: Row, agent: string)
    ensures GoFields(r, agent).reason.None? && GoFields(r, agent).blockerKind.None?
  {
  }

  /** `go`. `admitted` stands for the plate and the usage governor, `ready` for triage. */
  method Go(w: World, agent: string, dryRun: bool, reassign: bool, admitted: bool, ready: bool)
      returns (outcome: GoOutcome)
    requires w.Valid()
    modifies w
    ensures w.Valid() && old(w.trace) <= w.trace && old(w.past) <= w.past
    ensures forall i | |old(w.past)| <= i < |w.past| :: GoStep(old(w.row), agent, reassign, w.past[i])
    ensures var es, u := Since(w.trace, old(w.trace)), GoFields(old(w.row), agent);
      && Sends(es) <= 1 && Writes(es) <= 3 && Disciplined(es, Evidence(true), u)
      && (outcome.Dispatched? ==>
            (Sends(es) == 1 && 1 <= outcome.attempts == Writes(es) && es != [] && es[|es| - 1] == Read(Some(w.row))
             && AllApplied(w.row, u)))
      && (outcome.Untracked? ==> Sends(es) == 1 && Evidence(true) in es)
      && (outcome.SendUnverified? || outcome.Raised? ==> Writes(es) == 0 && w.row == old(w.row))
      && (outcome.Unread? || outcome.PlanRefused? || outcome.TriageRefused? || outcome.Previewed? ==>
            Sends(es) == 0 && Writes(es) == 0 && w.row == old(w.row))
    // the item is recorded as this agent's, under way and with no deadline
    ensures outcome.Dispatched? ==>
      && Shows(w.row.status, "in_progress") && Shows(w.row.assignee, agent)
      && (old(w.row).deferUntil != "" ==> Strip(w.row.deferUntil) == "")
    ensures outcome.PlanRefused? ==> PlanRefusal(old(w.row), agent, reassign, admitted) == Some(outcome.why)
    // it goes to nobody when it is closed, blocked, waiting, somebody else's or not admitted, and only then refused
    ensures outcome.PlanRefused? || outcome.Unread? ||
      (old(w.row).status != "closed" && old(w.row).status != "blocked" && old(w.row).openBlockers == 0 && admitted
       && (reassign || Strip(old(w.row).assignee) == "" || Strip(old(w.row).assignee) == agent))
    ensures outcome.PlanRefused? ==>
      || old(w.row).status == "closed" || old(w.row).status == "blocked" || old(w.row).openBlockers > 0 || !admitted
      || (!reassign && Strip(old(w.row).assignee) != "" && Strip(old(w.row).assignee) != agent)
    ensures old(w.row).status == "closed" || old(w.row).status == "blocked" ==> outcome.Unread? || outcome.PlanRefused?
  {
    hide AllApplied, Partial, Disciplined, Sends, Writes, Looked, GoFields, Shows;
    ghost var start := w.trace;
    ghost var u0 := GoFields(w.row, agent);
    GoFieldsOnly(w.row, agent);
    NoEvents(Evidence(true), u0);
    var got := w.Get();
    assert Since(w.trace, start) == [] + [Read(got)];
    Grows([], Read(got), Evidence(true), u0);
    if got.None? { return Unread; }
    var refusal := PlanRefusal(got.value, agent, reassign, admitted);
    if refusal.Some? { return PlanRefused(refusal.value); }
    if dryRun { return Previewed; }
    if !ready { return TriageRefused; }
    ghost var es0 := Since(w.trace, start);
    var observed := w.Send();
    ghost var es1 := es0 + [Sent];
    Grows(es0, Sent, Evidence(true), u0);
    if observed.None? {
      assert Since(w.trace, start) == es1;
      return Raised;
    }
    assert Since(w.trace, start) == es1 + [Evidence(observed.value)];
    Grows(es1, Evidence(observed.value), Evidence(true), u0);
    if !observed.value {
      var seen := Verify(w, u0, start);
      if seen.None? { return Raised; }
      if !seen.value { return SendUnverified; }
    }
    var attempt := Track(w, GoFields(got.value, agent), start, Evidence(true));
    if attempt.None? { return Untracked; }
    TrackedShows(w.row, got.value, agent);
    return Dispatched(attempt.value);
  }

  // ---------- repool ----------

  datatype RepoolOutcome =
    | RepoolUnread
    | RepoolRefused
    | RepoolNoop
    | RepoolPreviewed
    | RepoolLost
    | Repooled(times: nat)

  const REPOOL_FIELDS := NO_FIELDS.(status := Some("open"), assignee := Some(""))

  predicate RepoolRefuses(r: Row) {
    r.status == "closed" || r.status == "blocked"
  }

  predicate InPool(r: Row) {
    r.status == "open" && Strip(r.assignee) == ""
  }

  ghost predicate RepoolStep(r: Row, r': Row) {
    r' == r || (!RepoolRefuses(r) && !InPool(r) && Partial(r, REPOOL_FIELDS, r'))
  }

  /** `repool`: back to the pool in one verified write, or a loud failure. */
  method Repool(w: World, dryRun: bool) returns (outcome: RepoolOutcome)
    requires w.Valid()
    modifies w
    ensures w.Valid() && old(w.trace) <= w.trace && old(w.past) <= w.past
    ensures forall i | |old(w.past)| <= i < |w.past| :: RepoolStep(old(w.row), w.past[i])
    ensures var es := Since(w.trace, old(w.trace));
      && Sends(es) == 0 && Writes(es) <= 3 && Disciplined(es, Read(Some(old(w.row))), REPOOL_FIELDS)
      && (outcome.Repooled? ==> (1 <= outcome.times == Writes(es) && es != [] && es[|es| - 1] == Read(Some(w.row))
           && Shows(w.row.status, "open") && Strip(w.row.assignee) == ""))
      && (outcome.RepoolUnread? || outcome.RepoolRefused? || outcome.RepoolNoop? || outcome.RepoolPreviewed? ==>
            Writes(es) == 0 && w.row == old(w.row))
    ensures outcome.RepoolRefused? || outcome.RepoolUnread?
      || (old(w.row).status != "closed" && old(w.row).status != "blocked")
    ensures outcome.RepoolRefused? ==> old(w.row).status == "closed" || old(w.row).status == "blocked"
    ensures outcome.RepoolNoop? ==> old(w.row).status == "open" && Strip(old(w.row).assignee) == ""
  {
    hide Partial, Disciplined, Sends, Writes;
    ghost var start := w.trace;
    ghost var license := Read(Some(w.row));
    NoEvents(license, REPOOL_FIELDS);
    var got := w.Get();
    assert Since(w.trace, start) == [] + [Read(got)];
    Grows([], Read(got), license, REPOOL_FIELDS);
    if got.None? { return RepoolUnread; }
    if RepoolRefuses(got.value) { return RepoolRefused; }
    if InPool(got.value) { return RepoolNoop; }
    if dryRun { return RepoolPreviewed; }
    var attempt := Track(w, REPOOL_FIELDS, start, license);
    if attempt.None? { return RepoolLost; }
    assert Strip("") == "";
    AppliedShows(w.row.status, "open");
    return Repooled(attempt.value);
  }
}
