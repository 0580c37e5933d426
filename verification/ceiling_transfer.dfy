/** `plan` of shantytown/ceiling_transfer.py: who takes the work held by agents at a ceiling. */
module CeilingTransfer {
  import opened Sorting
  import TextOrder

  type Name = string

  datatype Holder = Holder(agent: Name, item: string, why: string, evidence: string)

  datatype Candidate = Candidate(agent: Name, harness: string, load: nat, unavailable: string)

  datatype Move = Move(holder: Holder, to: Name)

  datatype Plan = Plan(moves: seq<Move>, stays: seq<Holder>)

  // ---------- room ----------

  predicate Eligible(c: Candidate, holding: set<Name>, cap: int, harness: string) {
    c.harness == harness && c.unavailable == "" && c.agent !in holding && c.load < cap
  }

  type Room = map<Name, nat>

  predicate Open(room: Room) {
    forall n | n in room :: room[n] > 0
  }

  /** The room an agent has; none when it may take nothing. */
  function At(room: Room, n: Name): nat {
    if n in room then room[n] else 0
  }

  function RoomOf(cs: seq<Candidate>, holding: set<Name>, cap: int, harness: string): (room: Room)
    ensures Open(room)
  {
    if cs == [] then map[]
    else
      var c := cs[|cs| - 1];
      var before := RoomOf(cs[..|cs| - 1], holding, cap, harness);
      if Eligible(c, holding, cap, harness) then before[c.agent := cap - c.load] else before
  }

  predicate UniqueNames(cs: seq<Candidate>) {
    forall i, j | 0 <= i < j < |cs| :: cs[i].agent != cs[j].agent
  }

  /** This candidate is what gives an agent its room. */
  predicate Gives(cs: seq<Candidate>, holding: set<Name>, cap: int, harness: string, c: Candidate, n: Name) {
    c in cs && c.agent == n && Eligible(c, holding, cap, harness)
  }

  /** With one candidate a name, an eligible one has the room the cap leaves it. */
  lemma {:induction false} RoomOfEligible(cs: seq<Candidate>, holding: set<Name>, cap: int, harness: string,
                                          c: Candidate)
    requires UniqueNames(cs) && c in cs && Eligible(c, holding, cap, harness)
    ensures var room := RoomOf(cs, holding, cap, harness); c.agent in room && room[c.agent] == cap - c.load
  {
    hide Eligible;
    var last, before := cs[|cs| - 1], cs[..|cs| - 1];
    if c != last {
      var i :| 0 <= i < |cs| && cs[i] == c;
      assert before[i] == c && c.agent != last.agent;
      RoomOfEligible(before, holding, cap, harness, c);
    }
  }

  /** Nobody else has any. */
  lemma {:induction false} RoomFrom(cs: seq<Candidate>, holding: set<Name>, cap: int, harness: string, n: Name)
      returns (c: Candidate)
    requires n in RoomOf(cs, holding, cap, harness)
    ensures Gives(cs, holding, cap, harness, c, n)
  {
    var last, before := cs[|cs| - 1], cs[..|cs| - 1];
    if Eligible(last, holding, cap, harness) && last.agent == n {
      c := last;
    } else {
      c := RoomFrom(before, holding, cap, harness, n);
      assert c in cs;
    }
  }

  // ---------- the choice ----------

  predicate Ahead(room: Room, a: Name, b: Name) {
    a in room && b in room && (room[b] < room[a] || (room[b] == room[a] && TextOrder.Less(a, b)))
  }

  /** The most room, then the first by name. */
  ghost predicate Best(room: Room, to: Name) {
    to in room && forall n | n in room && n != to :: Ahead(room, to, n)
  }

  lemma BestIsOne(room: Room, a: Name, b: Name)
    requires Best(room, a) && Best(room, b)
    ensures a == b
  {
    TextOrder.LessIsTotal(a, b);
  }

  /** `min(room, key=...)`. */
  method Pick(room: Room) returns (to: Name)
    requires room != map[]
    ensures Best(room, to) && to in room
  {
    hide TextOrder.Less;
    var todo := room.Keys;
    to :| to in todo;
    todo := todo - {to};
    while todo != {}
      invariant todo <= room.Keys && to in room.Keys - todo
      invariant forall n | n in room.Keys - todo && n != to :: Ahead(room, to, n)
      decreases todo
    {
      var n :| n in todo;
      TextOrder.LessIsTotal(n, to);
      if room[n] > room[to] || (room[n] == room[to] && TextOrder.Less(n, to)) {
        forall m | m in room.Keys - todo && m != to ensures Ahead(room, n, m) { AheadChains(room, n, to, m); }
        to := n;
      }
      todo := todo - {n};
    }
  }

  lemma AheadChains(room: Room, a: Name, b: Name, c: Name)
    requires Ahead(room, a, b) && Ahead(room, b, c)
    ensures Ahead(room, a, c)
  {
    if room[a] == room[b] == room[c] { TextOrder.LessChains(a, b, c); }
  }

  lemma {:induction false} BestExists(room: Room) returns (to: Name)
    requires room != map[]
    ensures Best(room, to)
    decreases |room|
  {
    var n :| n in room;
    var rest := room - {n};
    if rest == map[] {
      assert forall m | m in room :: m == n || m in rest;
      to := n;
    } else {
      assert rest.Keys == room.Keys - {n};
      var b := BestExists(rest);
      TextOrder.LessIsTotal(n, b);
      assert forall m | m in room && m != n :: m in rest && rest[m] == room[m];
      to := if Ahead(room, n, b) then n else b;
      forall m | m in room && m != to ensures Ahead(room, to, m) {
        if to == n && m != b { AheadChains(room, n, b, m); }
      }
    }
  }

  ghost function BestOf(room: Room): (to: Name)
    requires room != map[]
    ensures Best(room, to) && to in room
  {
    BestExistsIn(room);
    var to :| Best(room, to);
    to
  }

  lemma BestExistsIn(room: Room)
    requires room != map[]
    ensures exists to :: Best(room, to)
  {
    var to := BestExists(room);
  }

  function Take(room: Room, to: Name): Room
    requires to in room && Open(room)
  {
    if room[to] == 1 then room - {to} else room[to := room[to] - 1]
  }

  lemma TakeOne(room: Room, to: Name)
    requires to in room && Open(room)
    ensures Open(Take(room, to))
    ensures forall n :: At(Take(room, to), n) == At(room, n) - (if n == to then 1 else 0)
  {
  }

  // ---------- the plan ----------

  predicate HolderLess(a: Holder, b: Holder) {
    TextOrder.Less(a.agent, b.agent) || (a.agent == b.agent && TextOrder.Less(a.item, b.item))
  }

  /** The moves for these holders in turn. */
  ghost function Assign(holders: seq<Holder>, room: Room): Plan
    requires Open(room)
  {
    if holders == [] then Plan([], [])
    else if room == map[] then Plan([], holders)
    else
      var to := BestOf(room);
      TakeOne(room, to);
      var rest := Assign(holders[1..], Take(room, to));
      Plan([Move(holders[0], to)] + rest.moves, rest.stays)
  }

  function Holding(holders: seq<Holder>): set<Name> {
    set h | h in holders :: h.agent
  }

  ghost function PlanOf(holders: seq<Holder>, candidates: seq<Candidate>, cap: int, harness: string): Plan {
    Assign(Sort(holders, HolderLess), RoomOf(candidates, Holding(holders), cap, harness))
  }

  /** `plan`. */
  method MakePlan(holders: seq<Holder>, candidates: seq<Candidate>, cap: int, harness: string) returns (plan: Plan)
    ensures plan == PlanOf(holders, candidates, cap, harness)
  {
    hide Best, Sort, Assign, Follows;
    var holding := Holding(holders);
    var room: Room := map[];
    for i := 0 to |candidates|
      invariant room == RoomOf(candidates[..i], holding, cap, harness)
    {
      var c := candidates[i];
      assert candidates[..i + 1][..i] == candidates[..i];
      if c.harness == harness && c.unavailable == "" && c.agent !in holding && c.load < cap {
        room := room[c.agent := cap - c.load];
      }
    }
    assert candidates[..|candidates|] == candidates;
    var sorted := Sort(holders, HolderLess);
    var moves: seq<Move>, stays: seq<Holder> := [], [];
    ghost var whole := Assign(sorted, room);
    assert sorted[0..] == sorted;
    FollowsItself(whole);
    for i := 0 to |sorted|
      invariant Open(room)
      invariant stays != [] ==> room == map[]
      invariant Follows(whole, moves, stays, Assign(sorted[i..], room))
    {
      var h := sorted[i];
      assert sorted[i..] == [h] + sorted[i + 1..] && sorted[i..][1..] == sorted[i + 1..];
      AssignStep(whole, moves, stays, sorted[i..], room);
      if room == map[] {
        stays := stays + [h];
      } else {
        var to := Pick(room);
        BestIsOne(room, to, BestOf(room));
        moves := moves + [Move(h, to)];
        TakeOne(room, to);
        room := if room[to] - 1 <= 0 then room - {to} else room[to := room[to] - 1];
      }
    }
    AssignNothing(whole, moves, stays, room);
    return Plan(moves, stays);
  }

  lemma FollowsItself(whole: Plan)
    ensures Follows(whole, [], [], whole)
  {
    assert [] + whole.moves == whole.moves && [] + whole.stays == whole.stays;
  }

  lemma AssignNothing(whole: Plan, moves: seq<Move>, stays: seq<Holder>, room: Room)
    requires Open(room) && Follows(whole, moves, stays, Assign([], room))
    ensures whole == Plan(moves, stays)
  {
    assert moves + [] == moves && stays + [] == stays;
  }

  /** The whole plan is what there is already and the rest of it. */
  ghost predicate Follows(whole: Plan, moves: seq<Move>, stays: seq<Holder>, rest: Plan) {
    whole == Plan(moves + rest.moves, stays + rest.stays)
  }

  lemma AssignStep(whole: Plan, moves: seq<Move>, stays: seq<Holder>, holders: seq<Holder>, room: Room)
    requires Open(room) && holders != [] && Follows(whole, moves, stays, Assign(holders, room))
    ensures room == map[] ==> Follows(whole, moves, stays + [holders[0]], Assign(holders[1..], room))
    ensures room != map[] ==>
      Open(Take(room, BestOf(room)))
      && Follows(whole, moves + [Move(holders[0], BestOf(room))], stays, Assign(holders[1..], Take(room, BestOf(room))))
  {
    hide Best;
    assert holders == [holders[0]] + holders[1..];
    if room == map[] {
      assert stays + ([holders[0]] + holders[1..]) == (stays + [holders[0]]) + holders[1..];
      assert Assign(holders[1..], room) == Plan([], holders[1..]);
    } else {
      var to := BestOf(room);
      TakeOne(room, to);
      var rest := Assign(holders[1..], Take(room, to));
      assert moves + ([Move(holders[0], to)] + rest.moves) == (moves + [Move(holders[0], to)]) + rest.moves;
    }
  }
}
