/**
 `project` of shantytown/cost_daily.py: requests of a session grouped by UTC day and attribution, where
 one unknown quantity makes the group's quantity unknown.
 */
module CostDaily {
  import opened Basics

  const WINDOW: nat := 30
  const MOST_RECORDS: nat := 100000
  const DAY: nat := 86400

  datatype Kind = InputUncached | CacheRead | CacheWrite | Output

  /** One request as the parser hands it over. `at` is None when the timestamp cannot be read. */
  datatype Request = Request(harness: string, session: string, agent: string, id: string, at: Option<int>,
                             counts: map<Kind, Option<int>>, rig: string, bead: string, model: Option<string>,
                             attributed: bool)

  datatype Identity = Identity(harness: string, session: string, agent: string, id: string)

  datatype Source = Source(harness: string, session: string, agent: string)

  datatype GroupKey = GroupKey(day: int, rig: string, seed: string, agent: string, harness: string,
                               model: Option<string>)

  datatype Group = Group(counts: map<Kind, Option<int>>, requests: nat, attributionKnown: bool)

  type Rows = map<GroupKey, Group>

  function IdentityOf(r: Request): Identity {
    Identity(r.harness, r.session, r.agent, r.id)
  }

  function SourceOf(r: Request): Source {
    Source(r.harness, r.session, r.agent)
  }

  /** Whole days since the epoch. */
  function DayOf(stamp: int): int {
    stamp / DAY
  }

  function KeyOf(r: Request): GroupKey
    requires r.at.Some?
  {
    GroupKey(DayOf(r.at.value), r.rig, r.bead, r.agent, r.harness, r.model)
  }

  function Cutoff(now: int): int {
    DayOf(now) - WINDOW
  }

  // ---------- which requests are accepted ----------

  predicate Named(r: Request) {
    r.harness != "" && r.session != "" && r.agent != "" && r.id != ""
  }

  function Kinds(): set<Kind> {
    {InputUncached, CacheRead, CacheWrite, Output}
  }

  predicate WellFormed(r: Request, now: int) {
    && Named(r) && r.at.Some? && r.at.value <= now
    && r.counts.Keys == Kinds() && (forall k | k in r.counts :: r.counts[k].Some? ==> r.counts[k].value >= 0)
    && r.rig != "" && r.bead != ""
  }

  /** Two requests that may stand together: one agent a session, one request an identity. */
  predicate Agree(a: Request, b: Request) {
    && (a.harness == b.harness && a.session == b.session ==> a.agent == b.agent)
    && (IdentityOf(a) == IdentityOf(b) ==> a == b)
  }

  /** A set of requests that can be projected. */
  ghost predicate Acceptable(requests: set<Request>, now: int) {
    && (forall r | r in requests :: WellFormed(r, now))
    && (forall a, b | a in requests && b in requests :: Agree(a, b))
  }

  /** A day and the four quantities can be told of each. */
  predicate Shaped(requests: set<Request>) {
    forall r | r in requests :: ShapedOne(r)
  }

  predicate ShapedOne(r: Request) {
    r.at.Some? && r.counts.Keys == Kinds()
  }

  // ---------- what a projection says ----------

  /** The requests of one row. */
  function Members(requests: set<Request>, source: Source, key: GroupKey): set<Request>
    requires Shaped(requests)
  {
    set r | r in requests && SourceOf(r) == source && KeyOf(r) == key
  }

  ghost function SumOf(requests: set<Request>, kind: Kind): int
    requires forall r | r in requests :: kind in r.counts && r.counts[kind].Some?
    decreases |requests|
  {
    if requests == {} then 0
    else
      var r :| r in requests;
      r.counts[kind].value + SumOf(requests - {r}, kind)
  }

  /** One quantity of a row: unknown as soon as one request's is. */
  ghost function CountOf(requests: set<Request>, kind: Kind): Option<int>
    requires Shaped(requests) && kind in Kinds()
  {
    if exists r :: r in requests && r.counts[kind].None? then None else Some(SumOf(requests, kind))
  }

  /** This row is the account of these requests. */
  ghost predicate Accounts(row: Group, requests: set<Request>)
    requires Shaped(requests)
  {
    && row.requests == |requests|
    && (row.attributionKnown <==> forall r | r in requests :: r.attributed)
    && row.counts.Keys == Kinds()
    && forall kind | kind in Kinds() :: row.counts[kind] == CountOf(requests, kind)
  }

  /** A projection of these requests: every source, and for each of its keys in the window a row of
      exactly its requests. */
  ghost predicate Projects(sessions: map<Source, Rows>, requests: set<Request>, now: int)
    requires Shaped(requests)
  {
    && (forall s :: s in sessions <==> exists r :: r in requests && SourceOf(r) == s)
    && forall s | s in sessions :: RowsOf(sessions[s], requests, s, Cutoff(now))
  }

  ghost predicate RowsOf(rows: Rows, requests: set<Request>, source: Source, cutoff: int)
    requires Shaped(requests)
  {
    && (forall key :: key in rows <==> key.day >= cutoff && Members(requests, source, key) != {})
    && (forall key | key in rows :: Accounts(rows[key], Members(requests, source, key)))
  }

  /** There is one projection of a set of requests: order and exact repetition make no difference. */
  lemma ProjectionIsOne(a: map<Source, Rows>, b: map<Source, Rows>, requests: set<Request>, now: int)
    requires Shaped(requests)
    requires Projects(a, requests, now) && Projects(b, requests, now)
    ensures a == b
  {
    hide RowsOf;
    assert a.Keys == b.Keys;
    forall s | s in a ensures a[s] == b[s] { RowsAreOne(a[s], b[s], requests, s, Cutoff(now)); }
  }

  lemma RowsAreOne(a: Rows, b: Rows, requests: set<Request>, source: Source, cutoff: int)
    requires Shaped(requests) && RowsOf(a, requests, source, cutoff) && RowsOf(b, requests, source, cutoff)
    ensures a == b
  {
    hide Accounts, Members;
    forall key ensures key in a <==> key in b { }
    assert a.Keys == b.Keys;
    forall key | key in a ensures a[key] == b[key] {
      assert Shaped(Members(requests, source, key)) by { MembersShaped(requests, source, key); }
      AccountIsOne(a[key], b[key], Members(requests, source, key));
    }
  }

  lemma MembersShaped(requests: set<Request>, source: Source, key: GroupKey)
    requires Shaped(requests)
    ensures Shaped(Members(requests, source, key))
  {
  }

  lemma AccountIsOne(a: Group, b: Group, requests: set<Request>)
    requires Shaped(requests) && Accounts(a, requests) && Accounts(b, requests)
    ensures a == b
  {
    hide CountOf, Kinds;
    assert a.counts == b.counts;
  }

  // ---------- adding one request ----------

  lemma {:induction false} SumWithout(requests: set<Request>, r: Request, kind: Kind)
    requires r in requests && forall x | x in requests :: kind in x.counts && x.counts[kind].Some?
    ensures SumOf(requests, kind) == r.counts[kind].value + SumOf(requests - {r}, kind)
    decreases |requests|
  {
    var x :| x in requests && SumOf(requests, kind) == x.counts[kind].value + SumOf(requests - {x}, kind);
    if x != r {
      SumWithout(requests - {x}, r, kind);
      SumWithout(requests - {r}, x, kind);
      assert requests - {x} - {r} == requests - {r} - {x};
    }
  }

  /** A quantity with one more request. */
  function Plus(count: Option<int>, more: Option<int>): Option<int> {
    if more.None? || count.None? then None else Some(count.value + more.value)
  }

  lemma CountWith(requests: set<Request>, r: Request, kind: Kind)
    requires Shaped(requests + {r}) && r !in requests && kind in Kinds()
    ensures CountOf(requests + {r}, kind) == Plus(CountOf(requests, kind), r.counts[kind])
  {
    var all := requests + {r};
    if r.counts[kind].None? {
      assert r in all;
    } else if CountOf(requests, kind).None? {
      var x :| x in requests && x.counts[kind].None?;
      assert x in all;
    } else {
      SumWithout(all, r, kind);
      assert all - {r} == requests;
    }
  }

  lemma CountNone(kind: Kind)
    requires kind in Kinds()
    ensures CountOf({}, kind) == Some(0)
  {
  }

  function EmptyGroup(): Group {
    Group(map k | k in Kinds() :: Some(0), 0, true)
  }

  function WithRequest(g: Group, r: Request): Group
    requires g.counts.Keys == Kinds() == r.counts.Keys
  {
    Group(map k | k in Kinds() :: Plus(g.counts[k], r.counts[k]), g.requests + 1, g.attributionKnown && r.attributed)
  }

  lemma EmptyAccounts()
    ensures Accounts(EmptyGroup(), {})
  {
    forall kind | kind in Kinds() ensures EmptyGroup().counts[kind] == CountOf({}, kind) { CountNone(kind); }
  }

  lemma ShapeOf(r: Request)
    requires ShapedOne(r)
    ensures r.at.Some? && r.counts.Keys == Kinds()
  {
  }

  lemma AccountsOneMore(g: Group, requests: set<Request>, r: Request)
    requires Shaped(requests + {r})
    requires Accounts(g, requests) && r !in requests
    ensures Accounts(WithRequest(g, r), requests + {r})
  {
    hide CountOf, Kinds, ShapedOne;
    assert r in requests + {r} && Shaped(requests);
    assert ShapedOne(r) && (r.counts.Keys == Kinds()) by { ShapeOf(r); }
    forall kind | kind in Kinds() ensures WithRequest(g, r).counts[kind] == CountOf(requests + {r}, kind) {
      CountWith(requests, r, kind);
    }
    assert |requests + {r}| == |requests| + 1;
  }

  // ---------- the loop ----------

  /** The step of the loop for a request not seen before. */
  function Enter(sessions: map<Source, Rows>, r: Request, cutoff: int): map<Source, Rows>
    requires ShapedOne(r)
    requires forall s, key | s in sessions && key in sessions[s] :: sessions[s][key].counts.Keys == Kinds()
  {
    var source := SourceOf(r);
    var groups := if source in sessions then sessions[source] else map[];
    var key := KeyOf(r);
    if key.day < cutoff then sessions[source := groups]
    else sessions[source := groups[key := WithRequest(if key in groups then groups[key] else EmptyGroup(), r)]]
  }

  lemma ProjectsShape(sessions: map<Source, Rows>, requests: set<Request>, now: int)
    requires Shaped(requests)
    requires Projects(sessions, requests, now)
    ensures forall s, key | s in sessions && key in sessions[s] :: sessions[s][key].counts.Keys == Kinds()
  {
    forall s, key | s in sessions && key in sessions[s] ensures sessions[s][key].counts.Keys == Kinds() {
      assert RowsOf(sessions[s], requests, s, Cutoff(now));
    }
  }

  lemma ProjectsOneMore(sessions: map<Source, Rows>, requests: set<Request>, r: Request, now: int)
    requires Shaped(requests + {r})
    requires Projects(sessions, requests, now) && r !in requests
    ensures r in requests + {r}
    ensures forall s, key | s in sessions && key in sessions[s] :: sessions[s][key].counts.Keys == Kinds()
    ensures Projects(Enter(sessions, r, Cutoff(now)), requests + {r}, now)
  {
    hide Accounts, RowsOf;
    assert r in requests + {r};
    ProjectsShape(sessions, requests, now);
    var all := requests + {r};
    var source, key := SourceOf(r), KeyOf(r);
    var after := Enter(sessions, r, Cutoff(now));
    forall s ensures s in after <==> exists x :: x in all && SourceOf(x) == s {
      if s in sessions { var x :| x in requests && SourceOf(x) == s; assert x in all; }
    }
    var groups := if source in sessions then sessions[source] else map[];
    if source !in sessions { NoRows(requests, source, Cutoff(now)); }
    assert RowsOf(groups, requests, source, Cutoff(now));
    RowsOneMore(groups, requests, r, Cutoff(now));
    forall s | s in after ensures RowsOf(after[s], all, s, Cutoff(now)) {
      if s != source { OtherRows(sessions[s], requests, r, s, Cutoff(now)); }
    }
  }

  lemma NoRows(requests: set<Request>, source: Source, cutoff: int)
    requires Shaped(requests) && forall r | r in requests :: SourceOf(r) != source
    ensures RowsOf(map[], requests, source, cutoff)
  {
  }

  lemma OtherRows(rows: Rows, requests: set<Request>, r: Request, source: Source, cutoff: int)
    requires Shaped(requests + {r})
    requires RowsOf(rows, requests, source, cutoff) && SourceOf(r) != source
    ensures RowsOf(rows, requests + {r}, source, cutoff)
  {
    hide Accounts;
    forall key ensures Members(requests + {r}, source, key) == Members(requests, source, key) { }
  }

  lemma RowsOneMore(groups: Rows, requests: set<Request>, r: Request, cutoff: int)
    requires Shaped(requests + {r})
    requires r in requests + {r} && RowsOf(groups, requests, SourceOf(r), cutoff) && r !in requests
    ensures var key := KeyOf(r);
      if key.day < cutoff then RowsOf(groups, requests + {r}, SourceOf(r), cutoff)
      else
        && (key in groups ==> groups[key].counts.Keys == Kinds())
        && RowsOf(groups[key := WithRequest(if key in groups then groups[key] else EmptyGroup(), r)], requests + {r},
                  SourceOf(r), cutoff)
  {
    hide Accounts, Kinds, WithRequest, EmptyGroup, ShapedOne, Members, SourceOf, KeyOf;
    ShapeOf(r);
    assert Shaped(requests);
    var source, key := SourceOf(r), KeyOf(r);
    var before := Members(requests, source, key);
    MembersShaped(requests, source, key);
    MembersMore(requests, r);
    EmptyAccounts();
    var g := if key in groups then groups[key] else EmptyGroup();
    if key.day >= cutoff {
      assert Accounts(g, before);
      AccountsShape(g, before);
      assert Shaped(before + {r});
      AccountsOneMore(g, before, r);
    }
  }

  lemma MembersMore(requests: set<Request>, r: Request)
    requires Shaped(requests + {r}) && Shaped(requests) && r in requests + {r}
    ensures ShapedOne(r)
    ensures Members(requests + {r}, SourceOf(r), KeyOf(r)) == Members(requests, SourceOf(r), KeyOf(r)) + {r}
    ensures forall other | other != KeyOf(r) ::
      Members(requests + {r}, SourceOf(r), other) == Members(requests, SourceOf(r), other)
    ensures r !in requests ==> r !in Members(requests, SourceOf(r), KeyOf(r))
  {
  }

  lemma AccountsShape(g: Group, requests: set<Request>)
    requires Shaped(requests) && Accounts(g, requests)
    ensures g.counts.Keys == Kinds()
  {
  }

  /** What `project` answers. */
  ghost predicate IsProjection(records: seq<Request>, now: int, projected: Option<map<Source, Rows>>) {
    && (projected.Some? <==> 0 < |records| <= 100000 && Acceptable(Elements(records), now))
    && (projected.Some? ==> Shaped(Elements(records)) && Projects(projected.value, Elements(records), now))
  }

  // ---------- in terms of the records ----------

  /** A record with all its names, from no later than now, with the four quantities, none below zero. */
  predicate WellMade(r: Request, now: int) {
    && r.harness != "" && r.session != "" && r.agent != "" && r.id != "" && r.rig != "" && r.bead != ""
    && r.at.Some? && r.at.value <= now
    && r.counts.Keys == {InputUncached, CacheRead, CacheWrite, Output}
    && forall kind | kind in r.counts :: r.counts[kind].None? || 0 <= r.counts[kind].value
  }

  /** The record belongs to this session, and to this row of it: its own day, rig, seed, agent, harness and model. */
  predicate Falls(r: Request, s: Source, key: GroupKey) {
    && r.harness == s.harness && r.session == s.session && r.agent == s.agent
    && r.at.Some? && key.day * 86400 <= r.at.value < (key.day + 1) * 86400
    && key.rig == r.rig && key.seed == r.bead && key.agent == r.agent && key.harness == r.harness
    && key.model == r.model
  }

  /** A row's account of the records that fall in it. */
  ghost predicate RowOf(row: Group, records: set<Request>) {
    && row.requests == |records| > 0 && (row.attributionKnown <==> forall r | r in records :: r.attributed)
    && row.counts.Keys == {InputUncached, CacheRead, CacheWrite, Output}
    && (forall kind, r | kind in row.counts && r in records && kind in r.counts && r.counts[kind].None? ::
          row.counts[kind].None?)
    && (forall kind | kind in row.counts && row.counts[kind].None? ::
          exists r :: r in records && kind in r.counts && r.counts[kind].None?)
    && (forall kind | kind in row.counts && (forall r | r in records :: kind in r.counts && r.counts[kind].Some?) ::
          row.counts[kind] == Some(SumOf(records, kind)))
  }

  /** What `project` answers, said of the records: when it refuses, and which rows it has. */
  lemma ProjectionMeans(records: seq<Request>, now: int, projected: Option<map<Source, Rows>>)
    requires IsProjection(records, now, projected)
    ensures projected.Some? <==>
      (0 < |records| <= 100000 && (forall r | r in records :: WellMade(r, now))
       && (forall a, b | a in records && b in records && a.harness == b.harness && a.session == b.session ::
             a.agent == b.agent && (a.id == b.id ==> a == b)))
    ensures projected.Some? ==> forall s ::
      s in projected.value <==>
      exists r :: r in records && r.harness == s.harness && r.session == s.session && r.agent == s.agent
    ensures projected.Some? ==> forall s, key | s in projected.value ::
      key in projected.value[s] <==>
      key.day >= now / 86400 - 30 && exists r :: r in records && Falls(r, s, key)
    ensures projected.Some? ==> forall s, key | s in projected.value && key in projected.value[s] ::
      RowOf(projected.value[s][key], set r | r in records && Falls(r, s, key))
  {
    hide Projects, SumOf;
    AcceptableMeans(records, now);
    if projected.Some? {
      var sessions, requests := projected.value, Elements(records);
      SessionsMean(sessions, records, now);
      forall s: Source, key: GroupKey | s in sessions
        ensures key in sessions[s] <==> key.day >= now / 86400 - 30 && exists r :: r in records && Falls(r, s, key)
        ensures key in sessions[s] ==> RowOf(sessions[s][key], set r | r in records && Falls(r, s, key)) {
        RowMeans(sessions[s], records, s, key, now);
      }
    }
  }

  lemma AcceptableMeans(records: seq<Request>, now: int)
    ensures Acceptable(Elements(records), now) <==>
      ((forall r | r in records :: WellMade(r, now))
       && (forall a, b | a in records && b in records && a.harness == b.harness && a.session == b.session ::
             a.agent == b.agent && (a.id == b.id ==> a == b)))
  {
    forall r ensures WellFormed(r, now) <==> WellMade(r, now) { WellMadeMeans(r, now); }
    hide WellFormed, WellMade;
    if Acceptable(Elements(records), now) {
      forall a, b | a in records && b in records && a.harness == b.harness && a.session == b.session
        ensures a.agent == b.agent && (a.id == b.id ==> a == b) {
        assert Agree(a, b);
      }
    }
  }

  lemma WellMadeMeans(r: Request, now: int)
    ensures WellFormed(r, now) <==> WellMade(r, now)
  {
  }

  lemma SessionsMean(sessions: map<Source, Rows>, records: seq<Request>, now: int)
    requires Shaped(Elements(records)) && Projects(sessions, Elements(records), now)
    ensures forall s :: s in sessions <==>
      exists r :: r in records && r.harness == s.harness && r.session == s.session && r.agent == s.agent
    ensures forall s | s in sessions :: RowsOf(sessions[s], Elements(records), s, now / 86400 - 30)
  {
    hide RowsOf;
    forall s ensures s in sessions <==>
      exists r :: r in records && r.harness == s.harness && r.session == s.session && r.agent == s.agent {
      if s in sessions {
        var r :| r in Elements(records) && SourceOf(r) == s;
        assert r in records && r.harness == s.harness;
      }
      if r :| r in records && r.harness == s.harness && r.session == s.session && r.agent == s.agent {
        assert r in Elements(records) && SourceOf(r) == s;
      }
    }
  }

  lemma RowMeans(rows: Rows, records: seq<Request>, s: Source, key: GroupKey, now: int)
    requires Shaped(Elements(records)) && RowsOf(rows, Elements(records), s, now / 86400 - 30)
    ensures key in rows <==> key.day >= now / 86400 - 30 && exists r :: r in records && Falls(r, s, key)
    ensures key in rows ==> RowOf(rows[key], set r | r in records && Falls(r, s, key))
  {
    hide Accounts, Falls, RowOf, Members, Shaped;
    var requests := Elements(records);
    MembersFall(records, s, key);
    MembersShaped(requests, s, key);
    var members := Members(requests, s, key);
    if r :| r in records && Falls(r, s, key) { assert r in members; }
    if members != {} {
      var m :| m in members;
      assert m in records && Falls(m, s, key);
    }
    if key in rows { AccountMeans(rows[key], members); }
  }

  lemma MembersFall(records: seq<Request>, s: Source, key: GroupKey)
    requires Shaped(Elements(records))
    ensures Members(Elements(records), s, key) == set r | r in records && Falls(r, s, key)
  {
    hide Falls, KeyOf, SourceOf;
    forall r | r in records ensures r.at.Some? && (SourceOf(r) == s && KeyOf(r) == key <==> Falls(r, s, key)) {
      assert r in Elements(records) && ShapedOne(r);
      FallsWhere(r, s, key);
    }
  }

  lemma AccountMeans(row: Group, members: set<Request>)
    requires Shaped(members) && members != {} && Accounts(row, members)
    ensures RowOf(row, members)
  {
    hide SumOf;
    forall kind | kind in row.counts && row.counts[kind].None?
      ensures exists r :: r in members && kind in r.counts && r.counts[kind].None? {
      var r :| r in members && r.counts[kind].None?;
      assert ShapedOne(r);
    }
    forall kind, r | kind in row.counts && r in members && kind in r.counts && r.counts[kind].None?
      ensures row.counts[kind].None? {
      assert ShapedOne(r);
    }
  }

  lemma FallsWhere(r: Request, s: Source, key: GroupKey)
    requires r.at.Some?
    ensures SourceOf(r) == s && KeyOf(r) == key <==> Falls(r, s, key)
  {
  }

  /** Records in another order, or handed over more than once, are projected alike as long as there are not too many. */
  lemma ReorderedAlike(a: seq<Request>, b: seq<Request>, now: int, pa: Option<map<Source, Rows>>,
                       pb: Option<map<Source, Rows>>)
    requires Elements(a) == Elements(b) && |a| <= 100000 && |b| <= 100000
    requires IsProjection(a, now, pa) && IsProjection(b, now, pb)
    ensures pa == pb
  {
    hide Acceptable, Projects, Shaped;
    assert a == [] <==> b == [] by {
      assert a != [] ==> a[0] in Elements(a);
      assert b != [] ==> b[0] in Elements(b);
    }
    if pa.Some? { ProjectionIsOne(pa.value, pb.value, Elements(a), now); }
  }

  /** `project`: a projection of the set of requests exactly when they can be projected. */
  method Project(records: seq<Request>, now: int) returns (projected: Option<map<Source, Rows>>)
    ensures IsProjection(records, now, projected)
  {
    hide Projects, Acceptable, WellFormed, Named, Enter, SeenRequests, SeenAgents, Shaped, Elements, ShapedOne;
    if records == [] || |records| > MOST_RECORDS { return None; }
    var requests: map<Identity, Request> := map[];
    var agents: map<(string, string), string> := map[];
    var sessions: map<Source, Rows> := map[];
    NothingYet(now);
    ElementsGrow(records);
    for i := 0 to |records|
      invariant Acceptable(Elements(records[..i]), now)
      invariant SeenRequests(requests, Elements(records[..i])) && SeenAgents(agents, Elements(records[..i]))
      invariant Shaped(Elements(records[..i])) && Projects(sessions, Elements(records[..i]), now)
    {
      var record := records[i];
      ghost var done := Elements(records[..i]);
      ElementsStep(records, i);
      Refusals(requests, agents, done, record, now, Elements(records));
      if !Named(record) { return None; }
      var pair := (record.harness, record.session);
      if pair in agents && agents[pair] != record.agent { return None; }
      Agents(agents, done, record);
      agents := agents[pair := record.agent];
      var identity := IdentityOf(record);
      if identity in requests {
        if requests[identity] != record { return None; }
        OldRequest(requests, done, record);
        continue;
      }
      if !WellFormed(record, now) { return None; }
      NewRequest(requests, agents, done, record, now);
      ProjectsOneMore(sessions, done, record, now);
      requests := requests[identity := record];
      sessions := Enter(sessions, record, Cutoff(now));
    }
    return Some(sessions);
  }

  lemma ElementsGrow(records: seq<Request>)
    ensures Elements(records[..0]) == {} && records[..|records|] == records
  {
  }

  lemma ElementsStep(records: seq<Request>, i: nat)
    requires i < |records|
    ensures Elements(records[..i + 1]) == Elements(records[..i]) + {records[i]} <= Elements(records)
  {
    assert records[..i + 1] == records[..i] + [records[i]];
  }

  /** The two dictionaries of the loop hold exactly what has been read. */
  ghost predicate Seen(requests: map<Identity, Request>, agents: map<(string, string), string>, done: set<Request>) {
    SeenRequests(requests, done) && SeenAgents(agents, done)
  }

  ghost predicate SeenRequests(requests: map<Identity, Request>, done: set<Request>) {
    && (forall r | r in done :: IdentityOf(r) in requests && requests[IdentityOf(r)] == r)
    && (forall i | i in requests :: requests[i] in done && IdentityOf(requests[i]) == i)
  }

  predicate SessionOf(r: Request, pair: (string, string), agent: string) {
    (r.harness, r.session) == pair && r.agent == agent
  }

  ghost predicate SeenAgents(agents: map<(string, string), string>, done: set<Request>) {
    AgentsOf(agents, done) && AgentsFrom(agents, done)
  }

  ghost predicate AgentsOf(agents: map<(string, string), string>, done: set<Request>) {
    forall r | r in done :: (r.harness, r.session) in agents && agents[(r.harness, r.session)] == r.agent
  }

  ghost predicate AgentsFrom(agents: map<(string, string), string>, done: set<Request>) {
    forall p | p in agents :: exists r :: r in done && SessionOf(r, p, agents[p])
  }

  lemma NothingYet(now: int)
    ensures Acceptable({}, now) && Seen(map[], map[], {}) && Shaped({}) && Projects(map[], {}, now)
  {
  }

  /** What the loop refuses cannot be projected. */
  lemma Refusals(requests: map<Identity, Request>, agents: map<(string, string), string>, done: set<Request>,
                 r: Request, now: int, all: set<Request>)
    requires Seen(requests, agents, done) && done + {r} <= all
    ensures (r.harness, r.session) in agents && agents[(r.harness, r.session)] != r.agent ==> !Acceptable(all, now)
    ensures IdentityOf(r) in requests && requests[IdentityOf(r)] != r ==> !Acceptable(all, now)
    ensures !WellFormed(r, now) ==> !Acceptable(all, now)
    ensures !Named(r) ==> !Acceptable(all, now)
  {
    hide Acceptable, Named, WellFormed, Agree, IdentityOf, SeenAgents, SeenRequests;
    var pair, identity := (r.harness, r.session), IdentityOf(r);
    assert r in all && done <= all;
    IllFormed(all, r, now);
    if pair in agents && agents[pair] != r.agent {
      var x := WhoseAgent(agents, done, pair);
      OtherAgent(x, r);
      Disagree(all, x, r, now);
    }
    if identity in requests && requests[identity] != r {
      WhoseIdentity(requests, done, identity);
      SameIdentity(requests[identity], r);
      Disagree(all, requests[identity], r, now);
    }
  }

  lemma WhoseAgent(agents: map<(string, string), string>, done: set<Request>, pair: (string, string))
      returns (x: Request)
    requires SeenAgents(agents, done) && pair in agents
    ensures x in done && SessionOf(x, pair, agents[pair])
  {
    hide AgentsOf;
    x :| x in done && SessionOf(x, pair, agents[pair]);
  }

  lemma AgentSeen(agents: map<(string, string), string>, done: set<Request>, x: Request)
    requires SeenAgents(agents, done) && x in done
    ensures (x.harness, x.session) in agents && agents[(x.harness, x.session)] == x.agent
  {
  }

  lemma WhoseIdentity(requests: map<Identity, Request>, done: set<Request>, identity: Identity)
    requires SeenRequests(requests, done) && identity in requests
    ensures requests[identity] in done && IdentityOf(requests[identity]) == identity
  {
  }

  lemma IdentitySeen(requests: map<Identity, Request>, done: set<Request>, x: Request)
    requires SeenRequests(requests, done) && x in done
    ensures IdentityOf(x) in requests && requests[IdentityOf(x)] == x
  {
  }

  lemma OtherAgent(a: Request, b: Request)
    ensures a.harness == b.harness && a.session == b.session && a.agent != b.agent ==> !Agree(a, b)
  {
  }

  lemma SameIdentity(a: Request, b: Request)
    ensures IdentityOf(a) == IdentityOf(b) && a != b ==> !Agree(a, b)
  {
  }

  lemma AgreeWhen(a: Request, b: Request)
    requires a.harness == b.harness && a.session == b.session ==> a.agent == b.agent
    requires IdentityOf(a) == IdentityOf(b) ==> a == b
    ensures Agree(a, b)
  {
  }

  lemma IllFormed(all: set<Request>, r: Request, now: int)
    requires r in all
    ensures !WellFormed(r, now) || !Named(r) ==> !Acceptable(all, now)
  {
  }

  lemma Disagree(all: set<Request>, a: Request, b: Request, now: int)
    requires a in all && b in all && !Agree(a, b)
    ensures !Acceptable(all, now)
  {
  }

  lemma Agents(agents: map<(string, string), string>, done: set<Request>, r: Request)
    requires SeenAgents(agents, done)
    requires (r.harness, r.session) in agents ==> agents[(r.harness, r.session)] == r.agent
    ensures SeenAgents(agents[(r.harness, r.session) := r.agent], done + {r})
    ensures r in done ==> agents[(r.harness, r.session) := r.agent] == agents
  {
    var agents' := agents[(r.harness, r.session) := r.agent];
    assert r in done + {r};
    forall p | p in agents' ensures exists x :: x in done + {r} && SessionOf(x, p, agents'[p]) {
      if p == (r.harness, r.session) {
        assert SessionOf(r, p, agents'[p]);
      } else {
        var x :| x in done && SessionOf(x, p, agents[p]);
        assert x in done + {r};
      }
    }
  }

  lemma NewRequest(requests: map<Identity, Request>, agents: map<(string, string), string>, done: set<Request>,
                   r: Request, now: int)
    requires Acceptable(done, now) && SeenRequests(requests, done) && SeenAgents(agents, done + {r}) && Shaped(done)
    requires IdentityOf(r) !in requests && WellFormed(r, now)
    ensures r !in done && Acceptable(done + {r}, now) && SeenRequests(requests[IdentityOf(r) := r], done + {r})
    ensures Shaped(done + {r}) && ShapedOne(r)
  {
    hide WellFormed, Kinds, Agree, IdentityOf, ShapedOne, SeenAgents, SeenRequests;
    WellShaped(r, now);
    assert r in done + {r};
    assert r !in done by { if r in done { IdentitySeen(requests, done, r); } }
    forall a, b | a in done + {r} && b in done + {r} ensures Agree(a, b) {
      AgentSeen(agents, done + {r}, a);
      AgentSeen(agents, done + {r}, b);
      if a in done { IdentitySeen(requests, done, a); }
      if b in done { IdentitySeen(requests, done, b); }
      AgreeWhen(a, b);
    }
    SeenOneMore(requests, done, r);
  }

  lemma SeenOneMore(requests: map<Identity, Request>, done: set<Request>, r: Request)
    requires SeenRequests(requests, done) && IdentityOf(r) !in requests
    ensures SeenRequests(requests[IdentityOf(r) := r], done + {r})
  {
    hide IdentityOf;
  }

  lemma WellShaped(r: Request, now: int)
    requires WellFormed(r, now)
    ensures ShapedOne(r)
  {
  }

  lemma OldRequest(requests: map<Identity, Request>, done: set<Request>, r: Request)
    requires SeenRequests(requests, done) && IdentityOf(r) in requests && requests[IdentityOf(r)] == r
    ensures r in done && done + {r} == done
  {
  }
}
