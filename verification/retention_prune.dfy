/**
 `prune` of shantytown/codex_retention.py: plan again before every removal, rename,
 look once more, and only then delete.
 */
module RetentionPrune {
  import opened Basics
  import opened Retention

  /** One rename, with everything the inventory just before it was made from. */
  datatype Detachment = Detachment(name: Name, names: seq<Name>, rows: map<Name, Snapshot>, current: Name,
                                   inUse: set<Name>, now: int)

  /** One deletion begun, and the readers last seen since that release was renamed. */
  datatype Deletion = Deletion(name: Name, seen: Option<set<Name>>)

  /** No release was deleted before a look, after its rename, found no reader of it. */
  ghost predicate Spared(deletions: seq<Deletion>) {
    forall d | d in deletions :: d.seen.Some? && d.name !in d.seen.value
  }

  /** The deletions are those of the first releases of the plan. */
  ghost predicate DeletedOf(deletions: seq<Deletion>, remove: seq<Name>, done: nat) {
    |deletions| == done <= |remove| && forall i | 0 <= i < done :: deletions[i].name == remove[i]
  }

  lemma SparedMore(deletions: seq<Deletion>, remove: seq<Name>, done: nat, d: Deletion)
    requires Spared(deletions) && DeletedOf(deletions, remove, done) && done < |remove| && d.name == remove[done]
    requires d.seen.Some? && d.name !in d.seen.value
    ensures Spared(deletions + [d]) && DeletedOf(deletions + [d], remove, done + 1)
  {
  }

  /** The listing with one release less. */
  predicate OneLess(names': seq<Name>, rows': map<Name, Snapshot>, names: seq<Name>, rows: map<Name, Snapshot>,
                    n: Name) {
    rows' == rows - {n} && forall x <- names' + names + [n] :: x in names' <==> x in names && x != n
  }

  function Remove(ns: seq<Name>, n: Name): seq<Name> {
    if ns == [] then [] else if ns[0] == n then Remove(ns[1..], n) else [ns[0]] + Remove(ns[1..], n)
  }

  /** The release directory. Unless `quiet`, others may change it and the readers whenever
      they are looked at, and any call may fail. The clock never runs backwards. */
  class Releases {
    const quiet: bool
    var names: seq<Name>
    var rows: map<Name, Snapshot>
    var current: Option<Name>
    var unknown: bool
    var detached: Option<Name>       // renamed away and still there
    var inUse: set<Name>
    var clock: int
    ghost var log: seq<Detachment>
    ghost var looked: Option<set<Name>>   // the readers last seen since the last rename
    ghost var deletions: seq<Deletion>

    ghost predicate Valid() reads this {
      Listing(names, rows)
    }

    ghost predicate SameAs(ns: seq<Name>, rs: map<Name, Snapshot>, c: Option<Name>, u: bool,
                           use: set<Name>) reads this {
      names == ns && rows == rs && current == c && unknown == u && inUse == use
    }

    constructor (isQuiet: bool, ns: seq<Name>, rs: map<Name, Snapshot>, c: Option<Name>, use: set<Name>, now: int)
      requires Listing(ns, rs)
      ensures Valid() && quiet == isQuiet && SameAs(ns, rs, c, false, use) && clock == now && detached.None?
      ensures log == [] && deletions == []
    {
      quiet, names, rows, current, unknown, inUse, clock, detached, log :=
        isQuiet, ns, rs, c, false, use, now, None, [];
      looked, deletions := None, [];
    }

    /** Reading the readers and the clock; None when the reading raised. */
    method Look() returns (seen: Option<(set<Name>, int)>)
      requires Valid()
      modifies this`names, this`rows, this`current, this`unknown, this`inUse, this`clock, this`looked
      ensures Valid() && clock >= old(clock)
      ensures quiet ==> seen.Some? && SameAs(old(names), old(rows), old(current), old(unknown), old(inUse))
      ensures seen.Some? ==> seen.value == (inUse, clock) && looked == Some(inUse)
    {
      var tick: int := *;
      if tick > 0 { clock := clock + tick; }
      if quiet {
        looked := Some(inUse);
        return Some((inUse, clock));
      }
      var ns: seq<Name>, rs: map<Name, Snapshot> := *, *;
      if NoRepeats(ns) && rs.Keys == Elements(ns) { names, rows := ns, rs; }
      current, unknown, inUse := *, *, *;
      if * { return None; }
      looked := Some(inUse);
      return Some((inUse, clock));
    }

    /** Renaming one release away; the log keeps the inventory that allowed it. */
    method Detach(n: Name, ghost again: Detachment) returns (ok: bool)
      requires Valid() && n in names && detached.None?
      requires again.name == n && again.names == names && again.rows == rows && Some(again.current) == current
      requires again.inUse == inUse && again.now == clock
      modifies this`names, this`rows, this`detached, this`log, this`looked
      ensures Valid() && (quiet ==> ok)
      ensures ok ==> OneLess(names, rows, old(names), old(rows), n) && detached == Some(n) && log == old(log) + [again]
      ensures ok ==> looked.None?
      ensures !ok ==> names == old(names) && rows == old(rows) && detached.None? && log == old(log)
    {
      ok := quiet;
      if !quiet { ok := *; }
      if ok {
        Removed(names, n);
        names, rows := Remove(names, n), rows - {n};
        detached := Some(n);
        log := log + [again];
        looked := None;
      }
    }

    /** Deleting what was renamed; false when it raised, with the directory perhaps still there. */
    method Delete() returns (ok: bool)
      requires detached.Some?
      modifies this`detached, this`deletions
      ensures deletions == old(deletions) + [Deletion(old(detached.value), looked)]
      ensures (quiet ==> ok) && (ok ==> detached.None?) && (detached.Some? ==> detached == old(detached))
    {
      ok := quiet;
      if !quiet { ok := *; }
      var left: bool := *;
      deletions := deletions + [Deletion(detached.value, looked)];
      if ok || !left { detached := None; }
    }

    /** Putting the old name back, when the directory is still there and nobody took the name.
        The rename itself is taken to succeed. */
    method Restore()
      requires Valid() && detached.Some?
      modifies this`names, this`rows, this`detached
      ensures Valid() && old(detached.value) in names
      ensures detached.Some? ==> detached == old(detached)
    {
      var n := detached.value;
      if n !in names {
        var left: Snapshot := *;
        names, rows := names + [n], rows[n := left];
        detached := None;
      }
    }
  }

  lemma {:induction false} Removed(ns: seq<Name>, n: Name)
    requires NoRepeats(ns)
    ensures NoRepeats(Remove(ns, n)) && forall x :: x in Remove(ns, n) <==> x in ns && x != n
  {
    if ns != [] {
      assert forall i | 0 <= i < |ns[1..]| :: ns[1..][i] == ns[i + 1];
      Removed(ns[1..], n);
      assert forall x :: x in ns <==> x == ns[0] || x in ns[1..];
      assert ns[0] !in ns[1..];
      var rest := Remove(ns[1..], n);
      forall i | 0 <= i < |rest| ensures rest[i] != ns[0] { assert rest[i] in rest; }
    }
  }

  datatype Outcome =
    | Planned(plan: Plan)
    | Refused                      // nothing renamed now, or a partial result kept
    | Aborted                      // renamed, and then put back or gone
    | Pruned(removed: seq<Name>, freed: nat)

  /** Every release renamed away was outside what the inventory just before it retained. */
  ghost predicate Justified(log: seq<Detachment>, keep: nat) {
    forall i | 0 <= i < |log| ::
      log[i].current in log[i].names
      && log[i].name !in Retained(Sort(log[i].names), log[i].rows, log[i].current, log[i].inUse, keep, log[i].now)
  }

  lemma JustifiedGrows(log: seq<Detachment>, e: Detachment, keep: nat)
    requires Justified(log, keep) && e.current in e.names
    requires e.name !in Retained(Sort(e.names), e.rows, e.current, e.inUse, keep, e.now)
    ensures Justified(log + [e], keep)
  {
  }

  function Bytes(rows: map<Name, Snapshot>, ns: seq<Name>): nat
    requires forall n | n in ns :: n in rows
  {
    if ns == [] then 0 else Bytes(rows, ns[..|ns| - 1]) + rows[ns[|ns| - 1]].bytes
  }

  /** Once nobody interferes, the plan stays good from one removal to the next. */
  lemma StillPlanned(names: seq<Name>, rows: map<Name, Snapshot>, current: Name, inUse: set<Name>, keep: nat, now: int,
                     done: nat, left: seq<Name>, later: int)
    requires Listing(names, rows) && Sound(names, rows, Some(current), false, keep) && now <= later
    requires var plan := PlanFor(names, rows, Some(current), false, inUse, keep, now).value;
      && done < |plan.remove| && NoRepeats(left)
      && forall n :: n in left <==> n in names && n !in plan.remove[..done]
    ensures var plan := PlanFor(names, rows, Some(current), false, inUse, keep, now).value;
      var later' := PlanFor(left, rows - Elements(plan.remove[..done]), Some(current), false, inUse, keep, later);
      later'.Some? && plan.remove[done] in later'.value.remove
  {
    hide Sort, Retained, Without, InTextOrder;
    var plan := PlanFor(names, rows, Some(current), false, inUse, keep, now).value;
    var gone := Elements(plan.remove[..done]);
    PlanAgain(names, rows, current, inUse, keep, now, gone, left);
    var again := PlanFor(left, rows - gone, Some(current), false, inUse, keep, now).value;
    WithoutMembers(plan.remove, gone);
    RemoveShape(names, rows, current, inUse, keep, now);
    forall i | 0 <= i < done ensures plan.remove[i] != plan.remove[done] { }
    assert plan.remove[done] !in gone;
    assert plan.remove[done] in again.remove;
    RetainedAges(Sort(left), rows - gone, current, inUse, keep, now, later);
    WithoutMembers(Sort(left), Retained(Sort(left), rows - gone, current, inUse, keep, now));
    WithoutMembers(Sort(left), Retained(Sort(left), rows - gone, current, inUse, keep, later));
    InTextOrderMembers(Without(Sort(left), Retained(Sort(left), rows - gone, current, inUse, keep, now)));
    InTextOrderMembers(Without(Sort(left), Retained(Sort(left), rows - gone, current, inUse, keep, later)));
  }

  lemma RemoveShape(names: seq<Name>, rows: map<Name, Snapshot>, current: Name, inUse: set<Name>, keep: nat, now: int)
    requires Listing(names, rows) && Sound(names, rows, Some(current), false, keep)
    ensures var plan := PlanFor(names, rows, Some(current), false, inUse, keep, now).value;
      NoRepeats(plan.remove) && forall n | n in plan.remove :: n in names && n in rows && n !in plan.retained
  {
    hide Retained, InTextOrder;
    SortSorts(names);
    var vs := Sort(names);
    var kept := Retained(vs, rows, current, inUse, keep, now);
    WithoutAscending(vs, kept);
    WithoutMembers(vs, kept);
    AscendingNoRepeats(Without(vs, kept));
    InTextOrderMembers(Without(vs, kept));
  }

  lemma AscendingNoRepeats(vs: seq<Name>)
    requires Ascending(vs)
    ensures NoRepeats(vs)
  {
    forall i, j | 0 <= i < j < |vs| ensures vs[i] != vs[j] { assert Less(vs[i], vs[j]); }
  }

  /** The directory is what it was, less the first `done` releases of the plan. */
  ghost predicate CarriedOut(names0: seq<Name>, rows0: map<Name, Snapshot>, remove: seq<Name>, done: nat,
                             names: seq<Name>, rows: map<Name, Snapshot>)
    requires done <= |remove|
  {
    (forall n :: n in names <==> n in names0 && n !in remove[..done]) && rows == rows0 - Elements(remove[..done])
  }

  lemma CarryOne(names0: seq<Name>, rows0: map<Name, Snapshot>, remove: seq<Name>, done: nat, names: seq<Name>,
                 rows: map<Name, Snapshot>,
                 names': seq<Name>, rows': map<Name, Snapshot>)
    requires done < |remove| && CarriedOut(names0, rows0, remove, done, names, rows)
    requires OneLess(names', rows', names, rows, remove[done])
    ensures CarriedOut(names0, rows0, remove, done + 1, names', rows')
  {
    assert remove[..done + 1] == remove[..done] + [remove[done]];
    assert Elements(remove[..done + 1]) == Elements(remove[..done]) + {remove[done]};
  }

  ghost predicate Logged(log: seq<Detachment>, remove: seq<Name>, done: nat) {
    |log| == done <= |remove| && forall i | 0 <= i < done :: log[i].name == remove[i]
  }

  lemma LoggedMore(log: seq<Detachment>, remove: seq<Name>, done: nat, e: Detachment)
    requires Logged(log, remove, done) && done < |remove| && e.name == remove[done]
    ensures Logged(log + [e], remove, done + 1)
  {
  }

  /** Nobody else has touched the directory, and `done` releases of the plan are gone. */
  ghost predicate OnCourse(h: Releases, first: Listed, keep: nat, done: nat)
    reads h
  {
    && Listing(first.names, first.rows) && h.quiet && h.current == first.current && h.unknown == first.unknown
    && h.inUse == first.inUse
    && h.clock >= first.now
    && var plan := PlanOf(first, keep);
      plan.Some? && done <= |plan.value.remove|
      && CarriedOut(first.names, first.rows, plan.value.remove, done, h.names, h.rows)
  }

  /** Everything one inventory looked at. */
  datatype Listed = Listed(names: seq<Name>, rows: map<Name, Snapshot>, current: Option<Name>, unknown: bool,
                           inUse: set<Name>, now: int)

  function PlanOf(l: Listed, keep: nat): Option<Plan> {
    PlanFor(l.names, l.rows, l.current, l.unknown, l.inUse, keep, l.now)
  }

  datatype Step = Gone | StepRefused | StepAborted

  /** One turn of the loop: look and plan again, rename, look at the readers, delete.
      `first` is what the first inventory saw. */
  method RemoveOne(h: Releases, keep: nat, plan: Plan, removed: seq<Name>, ghost first: Listed) returns (step: Step)
    requires h.Valid() && h.detached.None? && |removed| < |plan.remove| && removed == plan.remove[..|removed|]
    requires Justified(h.log, keep) && Logged(h.log, plan.remove, |removed|)
    requires Spared(h.deletions) && DeletedOf(h.deletions, plan.remove, |removed|)
    requires h.quiet ==> OnCourse(h, first, keep, |removed|) && PlanOf(first, keep) == Some(plan)
    modifies h
    ensures h.Valid() && Justified(h.log, keep) && Spared(h.deletions)
    ensures h.detached.Some? ==> h.detached.value in h.names
    ensures !step.StepAborted? ==> h.detached.None?
    ensures step.Gone? ==> Logged(h.log, plan.remove, |removed| + 1)
    ensures step.Gone? ==> DeletedOf(h.deletions, plan.remove, |removed| + 1)
    ensures step.StepRefused? ==> h.log == old(h.log) && h.deletions == old(h.deletions)
    ensures h.quiet ==> step.Gone? && OnCourse(h, first, keep, |removed| + 1)
  {
    hide PlanFor, Sort, Retained, Without, InTextOrder, Justified, CarriedOut, NoRepeats, OneLess, Elements;
    hide Spared, DeletedOf, Logged, Fits, MustRefuse;
    var i := |removed|;
    var name := plan.remove[i];
    var seen := h.Look();
    if seen.None? { return StepRefused; }
    if h.quiet { QuietStep(first, keep, i, h.names, h.rows, seen.value.1); }
    var again := Inventory(h.names, h.rows, h.current, h.unknown, seen.value.0, keep, seen.value.1);
    if again.None? { return StepRefused; }
    if again.value.current != plan.current || again.value.rows != plan.rows - Elements(removed)
      || name !in again.value.remove {
      return StepRefused;
    }
    FreshFacts(h.names, h.rows, h.current, h.unknown, seen.value.0, keep, seen.value.1, name);
    ghost var detachment := Detachment(name, h.names, h.rows, h.current.value, seen.value.0, seen.value.1);
    JustifiedGrows(h.log, detachment, keep);
    LoggedMore(h.log, plan.remove, i, detachment);
    ghost var names, rows := h.names, h.rows;
    var ok := h.Detach(name, detachment);
    if !ok { return StepRefused; }
    if h.quiet { CarryOne(first.names, first.rows, plan.remove, i, names, rows, h.names, h.rows); }
    seen := h.Look();
    if seen.None? || name in seen.value.0 {
      h.Restore();
      return StepAborted;
    }
    SparedMore(h.deletions, plan.remove, i, Deletion(name, Some(seen.value.0)));
    ok := h.Delete();
    if ok { return Gone; }
    if h.detached.Some? { h.Restore(); }
    return StepAborted;
  }

  /** `prune`. `first` is what the first inventory saw. */
  method Prune(h: Releases, keep: nat, expected: Option<Plan>) returns (outcome: Outcome, ghost first: Listed)
    requires h.Valid() && h.detached.None? && h.log == [] && h.deletions == []
    modifies h
    ensures h.Valid() && Justified(h.log, keep) && Spared(h.deletions)
    // an aborted deletion never leaves a renamed release without its name
    ensures h.detached.Some? ==> h.detached.value in h.names
    ensures !outcome.Aborted? ==> h.detached.None?
    ensures outcome.Planned? ==> h.log == [] && h.deletions == []
    ensures outcome.Pruned? ==> DeletedOf(h.deletions, outcome.removed, |outcome.removed|)
    ensures outcome.Pruned? ==>
      expected.Some? && outcome.removed == expected.value.remove && Logged(h.log, outcome.removed, |outcome.removed|)
    // with nobody else about, a plan that still is the plan is carried out exactly
    ensures h.quiet ==>
      first == Listed(old(h.names), old(h.rows), old(h.current), old(h.unknown), old(h.inUse), first.now)
      && first.now >= old(h.clock)
    ensures h.quiet && PlanOf(first, keep).Some? && expected == PlanOf(first, keep) ==> Exactly(h, first, keep, outcome)
  {
    hide PlanFor, Sort, Retained, Without, InTextOrder, Justified, CarriedOut, Bytes, NoRepeats;
    hide Spared, DeletedOf, Fits, MustRefuse;
    NothingLogged(keep);
    var seen := h.Look();
    first := Listed(h.names, h.rows, h.current, h.unknown, h.inUse, h.clock);
    if seen.None? { return Refused, first; }
    var plan := Inventory(h.names, h.rows, h.current, h.unknown, seen.value.0, keep, seen.value.1);
    if plan.None? { return Refused, first; }
    if expected.None? { return Planned(plan.value), first; }
    if plan != expected { return Refused, first; }
    PlanShape(h.names, h.rows, h.current, h.unknown, seen.value.0, keep, seen.value.1);
    var remove := plan.value.remove;
    CarryNothing(h.names, h.rows, remove);
    var removed: seq<Name>, freed: nat := [], 0;
    for i := 0 to |remove|
      invariant h.Valid() && h.detached.None? && Justified(h.log, keep) && Logged(h.log, remove, i)
      invariant Spared(h.deletions) && DeletedOf(h.deletions, remove, i)
      invariant removed == remove[..i] && freed == Bytes(plan.value.rows, removed)
      invariant h.quiet ==> OnCourse(h, first, keep, i)
    {
      var step := RemoveOne(h, keep, plan.value, removed, first);
      if step.StepRefused? { return Refused, first; }
      if step.StepAborted? { return Aborted, first; }
      BytesStep(plan.value.rows, remove, i);
      removed := removed + [remove[i]];
      freed := freed + plan.value.rows[remove[i]].bytes;
      assert remove[..i + 1] == remove[..i] + [remove[i]];
    }
    assert remove[..|remove|] == remove;
    return Pruned(removed, freed), first;
  }

  /** The plan was carried out: these releases gone, these bytes counted, everything else as it was. */
  ghost predicate Exactly(h: Releases, first: Listed, keep: nat, outcome: Outcome)
    reads h
  {
    var plan := PlanOf(first, keep);
    && plan.Some? && (forall n | n in plan.value.remove :: n in first.rows)
    && outcome == Pruned(plan.value.remove, Bytes(first.rows, plan.value.remove))
    && CarriedOut(first.names, first.rows, plan.value.remove, |plan.value.remove|, h.names, h.rows)
  }

  lemma NothingLogged(keep: nat)
    ensures Justified([], keep) && Spared([]) && forall remove :: DeletedOf([], remove, 0)
  {
  }

  lemma CarryNothing(names: seq<Name>, rows: map<Name, Snapshot>, remove: seq<Name>)
    ensures CarriedOut(names, rows, remove, 0, names, rows)
    ensures remove[..0] == [] && Bytes(rows, []) == 0
  {
    assert rows - Elements(remove[..0]) == rows;
  }

  lemma BytesStep(rows: map<Name, Snapshot>, remove: seq<Name>, i: nat)
    requires i < |remove| && forall n | n in remove :: n in rows
    ensures Bytes(rows, remove[..i] + [remove[i]]) == Bytes(rows, remove[..i]) + rows[remove[i]].bytes
  {
    assert (remove[..i] + [remove[i]])[..i] == remove[..i];
  }

  lemma PlanShape(names: seq<Name>, rows: map<Name, Snapshot>, current: Option<Name>, unknown: bool, inUse: set<Name>,
                  keep: nat, now: int)
    requires Listing(names, rows)
    ensures var plan := PlanFor(names, rows, current, unknown, inUse, keep, now);
      plan.Some? ==> plan.value.rows == rows && forall n | n in plan.value.remove :: n in rows
  {
    hide Retained;
    if PlanFor(names, rows, current, unknown, inUse, keep, now).Some? {
      RemoveShape(names, rows, current.value, inUse, keep, now);
    }
  }

  lemma FreshFacts(names: seq<Name>, rows: map<Name, Snapshot>, current: Option<Name>, unknown: bool, inUse: set<Name>,
                   keep: nat, now: int, n: Name)
    requires Listing(names, rows)
    requires var again := PlanFor(names, rows, current, unknown, inUse, keep, now);
      again.Some? && n in again.value.remove
    ensures current.Some? && current.value in names && n in names
    ensures n !in Retained(Sort(names), rows, current.value, inUse, keep, now)
    ensures n !in inUse
  {
    RemoveShape(names, rows, current.value, inUse, keep, now);
    SortSorts(names);
    var c := current.value;
    assert IsAnchor(Sort(names), c, inUse, n) <== n in inUse;
  }

  /** Alone, the inventory before each removal still offers it. */
  lemma QuietStep(first: Listed, keep: nat, done: nat, left: seq<Name>, leftRows: map<Name, Snapshot>, later: int)
    requires Listing(first.names, first.rows) && Listing(left, leftRows) && first.now <= later
    requires var plan := PlanOf(first, keep);
      && plan.Some? && done < |plan.value.remove|
      && CarriedOut(first.names, first.rows, plan.value.remove, done, left, leftRows)
    ensures var plan, again :=
      PlanOf(first, keep).value, PlanFor(left, leftRows, first.current, first.unknown, first.inUse, keep, later);
      && again.Some? && again.value.current == plan.current && plan.remove[done] in again.value.remove
      && again.value.rows == plan.rows - Elements(plan.remove[..done])
  {
    hide Sort, Retained, Without;
    StillPlanned(first.names, first.rows, first.current.value, first.inUse, keep, first.now, done, left, later);
  }
}
