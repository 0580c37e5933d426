/** `update` of shantytown/cost_daily.py: the cache holds each source's latest projection, cut to the window. */
module CostDailyCache {
  import opened Basics
  import opened CostDaily

  const MOST_SESSIONS: nat := 4096
  const MOST_ROWS: nat := 100000

  datatype Snapshot = Snapshot(capturedAt: int, rows: Rows)

  type Sessions = map<Source, Snapshot>

  function Cut(rows: Rows, cutoff: int): Rows {
    map key | key in rows && key.day >= cutoff :: rows[key]
  }

  predicate SameSession(a: Source, b: Source) {
    a.harness == b.harness && a.session == b.session
  }

  /** The snapshots with the fresh ones in place of the old. */
  function Replaced(cached: Sessions, fresh_: map<Source, Rows>, now: int): Sessions {
    map s | s in cached.Keys + fresh_.Keys :: if s in fresh_ then Snapshot(now, fresh_[s]) else cached[s]
  }

  /** What has left the window goes, and a source with nothing left goes with it. */
  function Windowed(sessions: Sessions, cutoff: int): Sessions {
    map s | s in sessions && Cut(sessions[s].rows, cutoff) != map[] ::
      Snapshot(sessions[s].capturedAt, Cut(sessions[s].rows, cutoff))
  }

  function Updated(cached: Sessions, fresh_: map<Source, Rows>, now: int): Sessions {
    Windowed(Replaced(cached, fresh_, now), Cutoff(now))
  }

  /** After an update a row is there exactly when its day is in the window and the source's newest projection has
      it: the fresh one, or the one in the cache; with its own account and the time it was taken. */
  lemma UpdatedMeans(cached: Sessions, fresh_: map<Source, Rows>, now: int, s: Source, key: GroupKey, row: Group)
    ensures var after := Updated(cached, fresh_, now);
      (s in after && key in after[s].rows && after[s].rows[key] == row) <==>
      (key.day >= now / 86400 - 30
       && if s in fresh_ then key in fresh_[s] && fresh_[s][key] == row
          else s in cached && key in cached[s].rows && cached[s].rows[key] == row)
    ensures var after := Updated(cached, fresh_, now);
      s in after ==> after[s].capturedAt == if s in fresh_ then now else cached[s].capturedAt
    ensures var after := Updated(cached, fresh_, now); s in after ==> after[s].rows != map[]
  {
    var rows := if s in fresh_ then fresh_[s] else if s in cached then cached[s].rows else map[];
    if key in rows && key.day >= Cutoff(now) { assert key in Cut(rows, Cutoff(now)); }
  }

  /** No session changes its agent, and no observation of a source goes back in time. */
  predicate Follows(cached: Sessions, fresh_: map<Source, Rows>, now: int) {
    && (forall s, o | s in fresh_ && o in cached && SameSession(s, o) :: s.agent == o.agent)
    && (forall s | s in fresh_ && s in cached :: cached[s].capturedAt <= now)
  }

  ghost function RowsIn(sessions: Sessions): nat
    decreases |sessions|
  {
    if sessions == map[] then 0
    else
      var s :| s in sessions;
      assert (sessions - {s}).Keys == sessions.Keys - {s};
      |sessions[s].rows| + RowsIn(sessions - {s})
  }

  lemma {:induction false} RowsWithout(sessions: Sessions, s: Source)
    requires s in sessions
    ensures RowsIn(sessions) == |sessions[s].rows| + RowsIn(sessions - {s})
    decreases |sessions|
  {
    var o := RowsPick(sessions);
    hide RowsIn;
    if o != s {
      OneSessionLess(sessions, o);
      OneSessionLess(sessions, s);
      RowsWithout(sessions - {o}, s);
      RowsWithout(sessions - {s}, o);
      assert sessions - {o} - {s} == sessions - {s} - {o};
    }
  }

  lemma RowsPick(sessions: Sessions) returns (o: Source)
    requires sessions != map[]
    ensures o in sessions && RowsIn(sessions) == |sessions[o].rows| + RowsIn(sessions - {o})
  {
    o :| o in sessions && RowsIn(sessions) == |sessions[o].rows| + RowsIn(sessions - {o});
  }

  lemma OneSessionLess(sessions: Sessions, s: Source)
    requires s in sessions
    ensures |sessions - {s}| < |sessions|
  {
    assert (sessions - {s}).Keys == sessions.Keys - {s};
  }

  predicate WithinBudget(sessions: Sessions, rows: nat) {
    |sessions| <= 4096 && rows <= 100000
  }

  /** Replaying a result at the same time changes nothing. */
  lemma ReplayChangesNothing(cached: Sessions, fresh_: map<Source, Rows>, now: int)
    ensures Updated(Updated(cached, fresh_, now), fresh_, now) == Updated(cached, fresh_, now)
    ensures Follows(cached, fresh_, now) && OneAgent(cached) && OneAgentIn(fresh_) ==>
      Follows(Updated(cached, fresh_, now), fresh_, now)
  {
    var cutoff := Cutoff(now);
    var once := Updated(cached, fresh_, now);
    var twice := Updated(once, fresh_, now);
    forall s ensures s in once <==> s in twice { CutAgain(Replaced(cached, fresh_, now), s, cutoff); }
    assert once.Keys == twice.Keys;
    forall s | s in once ensures once[s] == twice[s] { CutAgain(Replaced(cached, fresh_, now), s, cutoff); }
  }

  lemma CutAgain(sessions: Sessions, s: Source, cutoff: int)
    ensures s in sessions ==> Cut(Cut(sessions[s].rows, cutoff), cutoff) == Cut(sessions[s].rows, cutoff)
  {
  }

  predicate OneAgent(sessions: Sessions) {
    forall a, b | a in sessions && b in sessions && SameSession(a, b) :: a.agent == b.agent
  }

  predicate OneAgentIn(fresh_: map<Source, Rows>) {
    forall a, b | a in fresh_ && b in fresh_ && SameSession(a, b) :: a.agent == b.agent
  }

  // ---------- the cache over a run ----------

  function Later(a: int, b: int): int {
    if a < b then b else a
  }

  /** A source's rows are its latest projection, cut to the latest window since. */
  ghost predicate Holds(sessions: Sessions, latest: map<Source, Rows>, cutoffs: map<Source, int>) {
    && latest.Keys == cutoffs.Keys && sessions.Keys <= latest.Keys
    && forall s | s in latest :: HoldsOne(sessions, s, Cut(latest[s], cutoffs[s]))
  }

  predicate HoldsOne(sessions: Sessions, s: Source, rows: Rows) {
    if rows == map[] then s !in sessions else s in sessions && sessions[s].rows == rows
  }

  function CutoffsAfter(cutoffs: map<Source, int>, fresh_: map<Source, Rows>, now: int): map<Source, int> {
    map s | s in cutoffs.Keys + fresh_.Keys :: if s in fresh_ then Cutoff(now) else Later(cutoffs[s], Cutoff(now))
  }

  lemma HoldsAfter(sessions: Sessions, latest: map<Source, Rows>, cutoffs: map<Source, int>, fresh_: map<Source, Rows>,
                   now: int)
    requires Holds(sessions, latest, cutoffs)
    ensures Holds(Updated(sessions, fresh_, now), latest + fresh_, CutoffsAfter(cutoffs, fresh_, now))
  {
    hide Cut, Updated;
    var latest', cutoffs' := latest + fresh_, CutoffsAfter(cutoffs, fresh_, now);
    forall s | s in latest' ensures HoldsOne(Updated(sessions, fresh_, now), s, Cut(latest'[s], cutoffs'[s])) {
      UpdatedAt(sessions, fresh_, now, s);
      if s !in fresh_ {
        assert HoldsOne(sessions, s, Cut(latest[s], cutoffs[s]));
        CutTwice(latest[s], cutoffs[s], Cutoff(now));
      }
    }
    UpdatedFrom(sessions, fresh_, now);
  }

  lemma UpdatedAt(sessions: Sessions, fresh_: map<Source, Rows>, now: int, s: Source)
    ensures s in fresh_ ==> HoldsOne(Updated(sessions, fresh_, now), s, Cut(fresh_[s], Cutoff(now)))
    ensures s !in fresh_ && s in sessions ==>
      HoldsOne(Updated(sessions, fresh_, now), s, Cut(sessions[s].rows, Cutoff(now)))
    ensures s !in fresh_ && s !in sessions ==> s !in Updated(sessions, fresh_, now)
  {
    hide Cut;
  }

  lemma UpdatedFrom(sessions: Sessions, fresh_: map<Source, Rows>, now: int)
    ensures Updated(sessions, fresh_, now).Keys <= sessions.Keys + fresh_.Keys
  {
    hide Cut;
  }

  lemma CutTwice(rows: Rows, a: int, b: int)
    ensures Cut(Cut(rows, a), b) == Cut(rows, Later(a, b))
    ensures Cut(rows, a) == map[] ==> Cut(rows, Later(a, b)) == map[]
  {
    assert Cut(rows, Later(a, b)).Keys <= Cut(rows, a).Keys;
    assert Cut(rows, Later(a, b)).Keys == {} ==> Cut(rows, Later(a, b)) == map[];
  }

  /** The fresh snapshots of these sources are in place, and none of them was refused. */
  ghost predicate Halfway(cached: Sessions, fresh_: map<Source, Rows>, now: int, done: set<Source>, bySource: Sessions)
    requires done <= fresh_.Keys
  {
    && bySource.Keys == cached.Keys + done
    && (forall s | s in bySource :: bySource[s] == if s in done then Snapshot(now, fresh_[s]) else cached[s])
    && (forall s, o | s in done && o in cached && SameSession(s, o) :: s.agent == o.agent)
    && (forall s | s in done && s in cached :: cached[s].capturedAt <= now)
  }

  class Cache {
    var sessions: Sessions
    ghost var latest: map<Source, Rows>       // each source's latest accepted projection
    ghost var cutoffs: map<Source, int>       // the latest window start since

    constructor ()
      ensures Valid() && sessions == map[]
    {
      sessions, latest, cutoffs := map[], map[], map[];
    }

    ghost predicate Valid() reads this {
      Holds(sessions, latest, cutoffs) && OneAgent(sessions)
    }

    /** `update`: validated before the file is touched; whatever is refused leaves it as it was. */
    method Update(records: seq<Request>, now: int) returns (ok: bool, ghost projected: Option<map<Source, Rows>>)
      requires Valid()
      modifies this
      ensures Valid() && IsProjection(records, now, projected)
      ensures ok ==> projected.Some? && Follows(old(sessions), projected.value, now)
      ensures ok ==>
        sessions == Updated(old(sessions), projected.value, now) && WithinBudget(sessions, RowsIn(sessions))
      ensures ok ==> latest == old(latest) + projected.value
      ensures !ok ==> sessions == old(sessions) && latest == old(latest)
      ensures !ok && projected.Some? && Follows(old(sessions), projected.value, now) ==>
        !WithinBudget(Updated(old(sessions), projected.value, now),
                      RowsIn(Updated(old(sessions), projected.value, now)))
    {
      hide IsProjection, Holds, OneAgent, Replaced, Windowed, RowsIn, SameSession, Follows, Halfway, CutoffsAfter;
      var fresh_ := Project(records, now);
      projected := fresh_;
      if fresh_.None? { return false, projected; }
      OneAgentProjected(records, now, fresh_.value);
      var bySource := sessions;
      var todo := fresh_.value.Keys;
      NothingReplaced(sessions, fresh_.value, now);
      assert fresh_.value.Keys - todo == {};
      while todo != {}
        invariant todo <= fresh_.value.Keys && sessions == old(sessions) && latest == old(latest)
        invariant cutoffs == old(cutoffs)
        invariant Halfway(sessions, fresh_.value, now, fresh_.value.Keys - todo, bySource)
        decreases todo
      {
        var s :| s in todo;
        Refused(sessions, fresh_.value, now, fresh_.value.Keys - todo, bySource, s);
        if exists o :: o in sessions && SameSession(s, o) && o.agent != s.agent { return false, projected; }
        if s in bySource && bySource[s].capturedAt > now { return false, projected; }
        assert fresh_.value.Keys - (todo - {s}) == (fresh_.value.Keys - todo) + {s};
        bySource := bySource[s := Snapshot(now, fresh_.value[s])];
        todo := todo - {s};
      }
      assert fresh_.value.Keys - todo == fresh_.value.Keys;
      AllReplaced(sessions, fresh_.value, now, bySource);
      var retained := Windowed(bySource, Cutoff(now));
      var rows := CountRows(retained);
      if |retained| > MOST_SESSIONS || rows > MOST_ROWS { return false, projected; }
      HoldsAfter(sessions, latest, cutoffs, fresh_.value, now);
      OneAgentAfter(sessions, fresh_.value, now);
      sessions := retained;
      latest, cutoffs := latest + fresh_.value, CutoffsAfter(cutoffs, fresh_.value, now);
      return true, projected;
    }
  }

  lemma NothingReplaced(cached: Sessions, fresh_: map<Source, Rows>, now: int)
    ensures Halfway(cached, fresh_, now, {}, cached)
  {
  }

  /** The loop refuses a source exactly when the update may not follow. */
  lemma Refused(cached: Sessions, fresh_: map<Source, Rows>, now: int, done: set<Source>, bySource: Sessions, s: Source)
    requires done <= fresh_.Keys && s in fresh_ && s !in done && Halfway(cached, fresh_, now, done, bySource)
    ensures (exists o :: o in cached && SameSession(s, o) && o.agent != s.agent) ==> !Follows(cached, fresh_, now)
    ensures s in bySource && bySource[s].capturedAt > now ==> !Follows(cached, fresh_, now)
    ensures (forall o :: o in cached && SameSession(s, o) ==> o.agent == s.agent) &&
            !(s in bySource && bySource[s].capturedAt > now)
      ==> Halfway(cached, fresh_, now, done + {s}, bySource[s := Snapshot(now, fresh_[s])])
  {
    hide SameSession;
  }

  lemma AllReplaced(cached: Sessions, fresh_: map<Source, Rows>, now: int, bySource: Sessions)
    requires Halfway(cached, fresh_, now, fresh_.Keys, bySource)
    ensures bySource == Replaced(cached, fresh_, now) && Follows(cached, fresh_, now)
  {
  }

  lemma OneAgentProjected(records: seq<Request>, now: int, fresh_: map<Source, Rows>)
    requires IsProjection(records, now, Some(fresh_))
    ensures OneAgentIn(fresh_)
  {
    forall a, b | a in fresh_ && b in fresh_ && SameSession(a, b) ensures a.agent == b.agent {
      var x :| x in Elements(records) && SourceOf(x) == a;
      var y :| y in Elements(records) && SourceOf(y) == b;
      assert Agree(x, y);
    }
  }

  lemma OneAgentAfter(cached: Sessions, fresh_: map<Source, Rows>, now: int)
    requires OneAgent(cached) && OneAgentIn(fresh_) && Follows(cached, fresh_, now)
    ensures OneAgent(Updated(cached, fresh_, now))
  {
    hide Cut;
  }

  method CountRows(sessions: Sessions) returns (rows: nat)
    ensures rows == RowsIn(sessions)
  {
    rows := 0;
    var todo := sessions;
    assert sessions - {} == sessions;
    while todo != map[]
      invariant rows + RowsIn(todo) == RowsIn(sessions)
      decreases |todo|
    {
      var s :| s in todo;
      RowsWithout(todo, s);
      assert (todo - {s}).Keys == todo.Keys - {s};
      rows := rows + |todo[s].rows|;
      todo := todo - {s};
    }
  }
}
