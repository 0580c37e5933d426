/** What a transfer plan promises: everybody once, nobody over the cap, load levelled, input order irrelevant. */
module CeilingPlan {
  import opened Basics
  import opened Sorting
  import opened CeilingTransfer
  import TextOrder

  // ---------- how many moves ----------

  ghost function Total(room: Room): nat
    decreases |room|
  {
    if room == map[] then 0
    else
      var n :| n in room;
      Smaller(room, n);
      room[n] + Total(room - {n})
  }

  lemma Smaller(room: Room, n: Name)
    requires n in room
    ensures |room - {n}| == |room| - 1
  {
    assert (room - {n}).Keys == room.Keys - {n};
  }

  lemma {:induction false} TotalWithout(room: Room, n: Name)
    requires n in room
    ensures Total(room) == room[n] + Total(room - {n})
    decreases |room|
  {
    var m :| m in room && Total(room) == room[m] + Total(room - {m});
    if m != n {
      Smaller(room, m);
      Smaller(room, n);
      TotalWithout(room - {m}, n);
      TotalWithout(room - {n}, m);
      assert room - {m} - {n} == room - {n} - {m};
    }
  }

  lemma TotalTake(room: Room, to: Name)
    requires Open(room) && to in room
    ensures Total(Take(room, to)) == Total(room) - 1
  {
    TotalWithout(room, to);
    if room[to] > 1 {
      TotalWithout(Take(room, to), to);
      assert Take(room, to) - {to} == room - {to};
    }
  }

  function HoldersOf(moves: seq<Move>): seq<Holder> {
    seq(|moves|, i requires 0 <= i < |moves| => moves[i].holder)
  }

  /** The first holders move, as many as there is room for, and the others stay. */
  lemma {:induction false} AssignSplits(holders: seq<Holder>, room: Room)
    requires Open(room)
    ensures var plan := Assign(holders, room);
      HoldersOf(plan.moves) + plan.stays == holders && |plan.moves| == Min(|holders|, Total(room))
  {
    hide Best, Take, Total, HoldersOf;
    NoHolders();
    if holders == [] {
    } else if room == map[] {
      NoTotal();
    } else {
      var to := BestOf(room);
      TakeOne(room, to);
      TotalTake(room, to);
      var rest := Assign(holders[1..], Take(room, to));
      assert Assign(holders, room) == Plan([Move(holders[0], to)] + rest.moves, rest.stays);
      AssignSplits(holders[1..], Take(room, to));
      hide Assign;
      MoreHolders(Move(holders[0], to), rest.moves);
      FirstHolder(holders, HoldersOf(rest.moves), rest.stays);
    }
  }

  lemma FirstHolder(holders: seq<Holder>, moved: seq<Holder>, stays: seq<Holder>)
    requires holders != [] && moved + stays == holders[1..]
    ensures ([holders[0]] + moved) + stays == holders
  {
    assert ([holders[0]] + moved) + stays == [holders[0]] + (moved + stays);
    assert holders == [holders[0]] + holders[1..];
  }

  lemma NoHolders()
    ensures HoldersOf([]) == []
  {
  }

  lemma MoreHolders(move: Move, moves: seq<Move>)
    ensures HoldersOf([move] + moves) == [move.holder] + HoldersOf(moves)
  {
  }

  lemma NoTotal()
    ensures Total(map[]) == 0
  {
  }

  // ---------- where they go ----------

  function Count(moves: seq<Move>, n: Name): nat {
    if moves == [] then 0 else (if moves[0].to == n then 1 else 0) + Count(moves[1..], n)
  }

  /** Nobody gets more than it has room for; afterwards whoever got something has at most one less
      room than anybody. `used` already have that property. */
  lemma {:induction false} AssignLevels(holders: seq<Holder>, room: Room, used: set<Name>)
    requires Open(room)
    requires forall n, m | n in used :: At(room, n) >= At(room, m) - 1
    ensures var moves := Assign(holders, room).moves;
      && (forall n :: Count(moves, n) <= At(room, n))
      && (forall n, m | n in used || Count(moves, n) > 0 ::
            At(room, n) - Count(moves, n) >= At(room, m) - Count(moves, m) - 1)
  {
    hide Best, Take, At;
    if holders != [] && room != map[] {
      var to := BestOf(room);
      TakeOne(room, to);
      MostRoom(room, to);
      var room' := Take(room, to);
      var used' := used + {to};
      forall n, m | n in used' ensures At(room', n) >= At(room', m) - 1 {
        assert n in used ==> At(room, n) >= At(room, to) - 1;
      }
      AssignLevels(holders[1..], room', used');
      var rest := Assign(holders[1..], room').moves;
      var moves := [Move(holders[0], to)] + rest;
      assert moves[1..] == rest;
      forall n ensures Count(moves, n) == Count(rest, n) + (if n == to then 1 else 0) { }
    }
  }

  lemma MostRoom(room: Room, to: Name)
    requires Best(room, to)
    ensures forall m :: At(room, m) <= At(room, to)
    ensures At(room, to) == room[to]
  {
  }

  // ---------- order does not matter ----------

  lemma HolderOrder()
    ensures WeakOrder(HolderLess)
  {
    hide TextOrder.Less;
    forall a, b ensures HolderLess(a, b) ==> !HolderLess(b, a) { Compare(a, b); }
    forall a, b, c ensures !HolderLess(b, a) && !HolderLess(c, b) ==> !HolderLess(c, a) {
      Compare(a, b);
      Compare(b, c);
      Compare(a, c);
      HolderChain(c, a, b);
      HolderChain(a, b, c);
      HolderChain(b, c, a);
    }
  }

  lemma Compare(a: Holder, b: Holder)
    ensures HolderLess(a, b) || HolderLess(b, a) || (a.agent == b.agent && a.item == b.item)
    ensures !(HolderLess(a, b) && HolderLess(b, a)) && !HolderLess(a, a)
    ensures a.agent == b.agent && a.item == b.item ==> !HolderLess(a, b)
  {
    TextOrder.LessIsTotal(a.agent, b.agent);
    TextOrder.LessIsTotal(a.item, b.item);
  }

  lemma HolderChain(a: Holder, b: Holder, c: Holder)
    ensures HolderLess(a, b) && HolderLess(b, c) ==> HolderLess(a, c)
    ensures HolderLess(a, b) && b.agent == c.agent && b.item == c.item ==> HolderLess(a, c)
    ensures HolderLess(b, c) && b.agent == a.agent && b.item == a.item ==> HolderLess(a, c)
  {
    hide TextOrder.Less;
    if TextOrder.Less(a.agent, b.agent) && TextOrder.Less(b.agent, c.agent) {
      TextOrder.LessChains(a.agent, b.agent, c.agent);
    }
    if TextOrder.Less(a.item, b.item) && TextOrder.Less(b.item, c.item) {
      TextOrder.LessChains(a.item, b.item, c.item);
    }
  }

  /** Each agent holds an item once. */
  predicate DistinctHoldings(holders: seq<Holder>) {
    forall x, y | x in holders && y in holders && x.agent == y.agent && x.item == y.item :: x == y
  }

  lemma SortedHolders(holders: seq<Holder>)
    ensures multiset(Sort(holders, HolderLess)) == multiset(holders) && InOrder(Sort(holders, HolderLess), HolderLess)
  {
    HolderOrder();
    SortSorts(holders, HolderLess);
  }

  lemma SameOrder(a: seq<Holder>, b: seq<Holder>)
    requires multiset(a) == multiset(b) && DistinctHoldings(a)
    ensures Sort(a, HolderLess) == Sort(b, HolderLess)
  {
    hide WeakOrder, Sort, HolderLess;
    HolderOrder();
    SortSorts(a, HolderLess);
    SortSorts(b, HolderLess);
    var s := Sort(a, HolderLess);
    forall x, y | x in s && y in s && x != y ensures HolderLess(x, y) || HolderLess(y, x) {
      assert x in multiset(s) && y in multiset(s);
      assert x in multiset(a) && y in multiset(a);
      Compare(x, y);
    }
    assert NoTies(s, HolderLess);
    OneOrder(s, Sort(b, HolderLess), HolderLess);
  }

  lemma SameRoom(a: seq<Candidate>, b: seq<Candidate>, holding: set<Name>, cap: int, harness: string)
    requires multiset(a) == multiset(b) && UniqueNames(a) && UniqueNames(b)
    ensures RoomOf(a, holding, cap, harness) == RoomOf(b, holding, cap, harness)
  {
    hide RoomOf, Eligible, UniqueNames;
    var ra, rb := RoomOf(a, holding, cap, harness), RoomOf(b, holding, cap, harness);
    forall n ensures n in ra ==> n in rb && rb[n] == ra[n] { if n in ra { MovesOver(a, b, holding, cap, harness, n); } }
    forall n ensures n in rb ==> n in ra && rb[n] == ra[n] { if n in rb { MovesOver(b, a, holding, cap, harness, n); } }
  }

  lemma MovesOver(a: seq<Candidate>, b: seq<Candidate>, holding: set<Name>, cap: int, harness: string, n: Name)
    requires multiset(a) == multiset(b) && UniqueNames(a) && UniqueNames(b)
    requires n in RoomOf(a, holding, cap, harness)
    ensures n in RoomOf(b, holding, cap, harness)
    ensures RoomOf(b, holding, cap, harness)[n] == RoomOf(a, holding, cap, harness)[n]
  {
    hide RoomOf, Eligible, UniqueNames;
    var c := RoomFrom(a, holding, cap, harness, n);
    assert c in multiset(a) && c in multiset(b);
    RoomOfEligible(a, holding, cap, harness, c);
    RoomOfEligible(b, holding, cap, harness, c);
  }

  /** The plan depends on what is held and who could take it, not on the order they are listed in. */
  lemma PlanIgnoresOrder(holders: seq<Holder>, holders': seq<Holder>, candidates: seq<Candidate>,
                         candidates': seq<Candidate>, cap: int, harness: string)
    requires multiset(holders) == multiset(holders') && DistinctHoldings(holders)
    requires multiset(candidates) == multiset(candidates') && UniqueNames(candidates) && UniqueNames(candidates')
    ensures PlanOf(holders, candidates, cap, harness) == PlanOf(holders', candidates', cap, harness)
  {
    hide Sort, RoomOf, Assign;
    SameOrder(holders, holders');
    assert forall h :: h in holders <==> h in multiset(holders);
    assert forall h :: h in holders' <==> h in multiset(holders');
    assert Holding(holders) == Holding(holders');
    SameRoom(candidates, candidates', Holding(holders), cap, harness);
  }

  // ---------- the plan as a whole ----------

  /** How many items the eligible candidates can take between them. */
  function Capacity(cs: seq<Candidate>, holding: set<Name>, cap: int, harness: string): nat {
    if cs == [] then 0
    else
      var c := cs[|cs| - 1];
      Capacity(cs[..|cs| - 1], holding, cap, harness) + (if Eligible(c, holding, cap, harness) then cap - c.load else 0)
  }

  lemma NamedOnce(cs: seq<Candidate>, c: Candidate)
    requires UniqueNames(cs) && cs != [] && c in cs[..|cs| - 1]
    ensures c.agent != cs[|cs| - 1].agent
  {
    var i :| 0 <= i < |cs| - 1 && cs[i] == c;
  }

  lemma {:induction false} CapacityIsTotal(cs: seq<Candidate>, holding: set<Name>, cap: int, harness: string)
    requires UniqueNames(cs)
    ensures Capacity(cs, holding, cap, harness) == Total(RoomOf(cs, holding, cap, harness))
  {
    hide Total, Eligible;
    if cs == [] {
      NoTotal();
    } else {
      var last, before := cs[|cs| - 1], cs[..|cs| - 1];
      CapacityIsTotal(before, holding, cap, harness);
      var room := RoomOf(before, holding, cap, harness);
      if Eligible(last, holding, cap, harness) {
        if last.agent in room {
          var c := RoomFrom(before, holding, cap, harness, last.agent);
          NamedOnce(cs, c);
          assert false;
        }
        var room' := RoomOf(cs, holding, cap, harness);
        TotalWithout(room', last.agent);
        assert room' - {last.agent} == room;
      }
    }
  }

  /** What an agent carries in the end. */
  function LoadAfter(c: Candidate, plan: Plan): nat {
    c.load + Count(plan.moves, c.agent)
  }

  /** May take work: of this harness, available, holding none of the work, and below the cap. */
  predicate CanTake(c: Candidate, holders: seq<Holder>, cap: int, harness: string) {
    c.harness == harness && c.unavailable == "" && c.load < cap && forall h | h in holders :: h.agent != c.agent
  }

  lemma EligibleExactly(c: Candidate, holders: seq<Holder>, cap: int, harness: string)
    ensures Eligible(c, Holding(holders), cap, harness) <==> CanTake(c, holders, cap, harness)
  {
  }

  /** Once somebody stays, nobody has room left. */
  lemma {:induction false} StaysWhenFull(holders: seq<Holder>, room: Room)
    requires Open(room) && Assign(holders, room).stays != []
    ensures forall n :: Count(Assign(holders, room).moves, n) == At(room, n)
  {
    hide Best, Take;
    if holders != [] && room != map[] {
      var to := BestOf(room);
      TakeOne(room, to);
      StaysWhenFull(holders[1..], Take(room, to));
      var rest := Assign(holders[1..], Take(room, to)).moves;
      CountFirst(Move(holders[0], to), rest);
    }
  }

  lemma CountFirst(move: Move, rest: seq<Move>)
    ensures forall n :: Count([move] + rest, n) == Count(rest, n) + (if n == move.to then 1 else 0)
  {
    assert ([move] + rest)[1..] == rest;
  }

  /** At its turn the receiver of a move has the most room, and among those with the most the first name. */
  predicate BestAt(room: Room, moves: seq<Move>, k: nat, n: Name)
    requires k < |moves|
  {
    var to := moves[k].to;
    var mine, other := At(room, to) - Count(moves[..k], to), At(room, n) - Count(moves[..k], n);
    mine > 0 && (other < mine || (other == mine && (n == to || TextOrder.Less(to, n))))
  }

  lemma {:induction false} BestEachTime(holders: seq<Holder>, room: Room, k: nat)
    requires Open(room) && k < |Assign(holders, room).moves|
    ensures forall n :: BestAt(room, Assign(holders, room).moves, k, n)
  {
    hide Take, TextOrder.Less;
    var to := BestOf(room);
    TakeOne(room, to);
    var rest := Assign(holders[1..], Take(room, to)).moves;
    var first := Move(holders[0], to);
    var moves := [first] + rest;
    assert Assign(holders, room).moves == moves;
    if k > 0 {
      BestEachTime(holders[1..], Take(room, to), k - 1);
      assert moves[..k] == [first] + rest[..k - 1];
      CountFirst(first, rest[..k - 1]);
      forall n ensures BestAt(room, moves, k, n) { assert BestAt(Take(room, to), rest, k - 1, n); }
    } else {
      assert moves[..0] == [];
    }
  }

  /** The load when this move is made. */
  function LoadAt(c: Candidate, plan: Plan, k: nat): nat
    requires k <= |plan.moves|
  {
    c.load + Count(plan.moves[..k], c.agent)
  }

  /** The receiver can take work, and carries the least when it gets the move, the first by name if others do. */
  ghost predicate LeastLoaded(plan: Plan, k: nat, holders: seq<Holder>, candidates: seq<Candidate>, cap: int,
                              harness: string)
    requires k < |plan.moves|
  {
    exists c | c in candidates ::
      && c.agent == plan.moves[k].to && CanTake(c, holders, cap, harness)
      && forall d | d in candidates && CanTake(d, holders, cap, harness) && d.agent != c.agent ::
           LoadAt(c, plan, k) < LoadAt(d, plan, k)
           || (LoadAt(c, plan, k) == LoadAt(d, plan, k) && TextOrder.Less(c.agent, d.agent))
  }

  /** In the order of agents, and of items for one agent. */
  predicate InTurn(a: Holder, b: Holder) {
    !(TextOrder.Less(b.agent, a.agent) || (b.agent == a.agent && TextOrder.Less(b.item, a.item)))
  }

  lemma PlanTheorem(holders: seq<Holder>, candidates: seq<Candidate>, cap: int, harness: string)
    requires UniqueNames(candidates)
    ensures var plan := PlanOf(holders, candidates, cap, harness);
      // every holder moves or stays, once, in turn; as many move as fit
      && var all := HoldersOf(plan.moves) + plan.stays;
      && multiset(all) == multiset(holders) && (forall i, j | 0 <= i < j < |all| :: InTurn(all[i], all[j]))
      && |plan.moves| == Min(|holders|, Capacity(candidates, Holding(holders), cap, harness))
      && (plan.stays != [] ==>
            forall c | c in candidates && CanTake(c, holders, cap, harness) :: LoadAfter(c, plan) == cap)
      // each to whoever carries least and can take it, and to none past the cap
      && (forall k | 0 <= k < |plan.moves| :: LeastLoaded(plan, k, holders, candidates, cap, harness))
      && (forall c | c in candidates && CanTake(c, holders, cap, harness) :: LoadAfter(c, plan) <= cap)
      // nobody who got something carries two more than somebody who could have had it
      && (forall c, d | c in candidates && d in candidates && CanTake(c, holders, cap, harness)
          && CanTake(d, holders, cap, harness) ::
            Count(plan.moves, c.agent) > 0 ==> LoadAfter(c, plan) <= LoadAfter(d, plan) + 1)
  {
    hide Sort, Assign, Total, Capacity, Count, Eligible, RoomOf, HolderLess, InTurn, TextOrder.Less, CanTake;
    var holding := Holding(holders);
    var room := RoomOf(candidates, holding, cap, harness);
    var sorted := Sort(holders, HolderLess);
    var plan := Assign(sorted, room);
    SortedHolders(holders);
    SameLength(sorted, holders);
    AssignSplits(sorted, room);
    AssignLevels(sorted, room, {});
    forall c | c in candidates && CanTake(c, holders, cap, harness) ensures At(room, c.agent) == cap - c.load {
      EligibleExactly(c, holders, cap, harness);
      RoomOfEligible(candidates, holding, cap, harness, c);
    }
    CapacityIsTotal(candidates, holding, cap, harness);
    if plan.stays != [] { StaysWhenFull(sorted, room); }
    InTurns(sorted);
    forall k | 0 <= k < |plan.moves| ensures LeastLoaded(plan, k, holders, candidates, cap, harness) {
      BestMeansLeast(sorted, holders, candidates, cap, harness, k);
    }
  }

  lemma InTurns(sorted: seq<Holder>)
    requires InOrder(sorted, HolderLess)
    ensures forall i, j | 0 <= i < j < |sorted| :: InTurn(sorted[i], sorted[j])
  {
    hide TextOrder.Less;
  }

  lemma BestMeansLeast(sorted: seq<Holder>, holders: seq<Holder>, candidates: seq<Candidate>, cap: int,
                       harness: string, k: nat)
    requires UniqueNames(candidates)
    requires k < |Assign(sorted, RoomOf(candidates, Holding(holders), cap, harness)).moves|
    ensures LeastLoaded(Assign(sorted, RoomOf(candidates, Holding(holders), cap, harness)), k, holders, candidates, cap,
                        harness)
  {
    hide Assign, Count, Eligible, RoomOf, TextOrder.Less, CanTake;
    var holding := Holding(holders);
    var room := RoomOf(candidates, holding, cap, harness);
    var plan := Assign(sorted, room);
    BestEachTime(sorted, room, k);
    var to := plan.moves[k].to;
    assert BestAt(room, plan.moves, k, to);
    var c := RoomFrom(candidates, holding, cap, harness, to);
    EligibleExactly(c, holders, cap, harness);
    RoomOfEligible(candidates, holding, cap, harness, c);
    forall d | d in candidates && CanTake(d, holders, cap, harness) && d.agent != c.agent
      ensures LoadAt(c, plan, k) < LoadAt(d, plan, k)
        || (LoadAt(c, plan, k) == LoadAt(d, plan, k) && TextOrder.Less(c.agent, d.agent))
    {
      EligibleExactly(d, holders, cap, harness);
      RoomOfEligible(candidates, holding, cap, harness, d);
      assert BestAt(room, plan.moves, k, d.agent);
    }
  }

  lemma SameLength(a: seq<Holder>, b: seq<Holder>)
    requires multiset(a) == multiset(b)
    ensures |a| == |b|
  {
    assert |multiset(a)| == |multiset(b)|;
  }
}
