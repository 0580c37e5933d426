/** `apply` of shantytown/ceiling_transfer.py: each move attempted once, never at a receiver that has refused. */
module CeilingApply {
  import opened CeilingTransfer

  /** How a dispatch ended: delivered and recorded, delivered but not recorded, refused by triage, or anything else. */
  datatype Answer = Confirmed | DeliveredUntracked | Refused | Unproven

  datatype Disposition = Attempted(answer: Answer) | NotAttempted

  datatype Outcome = Outcome(move: Move, moved: bool, commented: bool, disposition: Disposition)

  datatype Effect = Dispatched(move: Move, answer: Answer) | Commented(move: Move, written: bool) | Emitted(move: Move)

  /** The dispatcher, the tracker's comments and the event log. Every call may fail. */
  class Effects {
    ghost var log: seq<Effect>

    constructor ()
      ensures log == []
    {
      log := [];
    }

    method Dispatch(move: Move) returns (answer: Answer)
      modifies this
      ensures log == old(log) + [Dispatched(move, answer)]
    {
      answer := *;
      log := log + [Dispatched(move, answer)];
    }

    method Comment(move: Move) returns (written: bool)
      modifies this
      ensures log == old(log) + [Commented(move, written)]
    {
      written := *;
      log := log + [Commented(move, written)];
    }

    method Emit(move: Move)
      modifies this
      ensures log == old(log) + [Emitted(move)]
    {
      log := log + [Emitted(move)];
    }
  }

  /** What one reported outcome says was done. */
  function Done(o: Outcome): seq<Effect> {
    if o.disposition.NotAttempted? then []
    else [Dispatched(o.move, o.disposition.answer)] + (if o.moved then [Commented(o.move, o.commented), Emitted(o.move)]
                                                       else [])
  }

  function AllDone(outcomes: seq<Outcome>): seq<Effect> {
    if outcomes == [] then [] else AllDone(outcomes[..|outcomes| - 1]) + Done(outcomes[|outcomes| - 1])
  }

  predicate RefusedBefore(outcomes: seq<Outcome>, k: nat, to: Name)
    requires k <= |outcomes|
  {
    exists i | 0 <= i < k :: outcomes[i].disposition == Attempted(Refused) && outcomes[i].move.to == to
  }

  /** One outcome a move, in order; skipped exactly when the receiver refused earlier; moved exactly when confirmed. */
  predicate Faithful(outcomes: seq<Outcome>, moves: seq<Move>) {
    && |outcomes| <= |moves|
    && (forall i | 0 <= i < |outcomes| :: outcomes[i].move == moves[i])
    && (forall i | 0 <= i < |outcomes| ::
          outcomes[i].disposition.NotAttempted? <==> RefusedBefore(outcomes, i, moves[i].to))
    && (forall i | 0 <= i < |outcomes| :: outcomes[i].moved <==> outcomes[i].disposition == Attempted(Confirmed))
  }

  method Apply(moves: seq<Move>, effects: Effects) returns (outcomes: seq<Outcome>)
    modifies effects
    ensures Faithful(outcomes, moves) && |outcomes| == |moves|
    ensures effects.log == old(effects.log) + AllDone(outcomes)
  {
    hide Faithful, AllDone, RefusedBefore, Done;
    outcomes := [];
    NothingYet(moves);
    var refused: set<Name> := {};
    for k := 0 to |moves|
      invariant |outcomes| == k && Faithful(outcomes, moves)
      invariant forall n :: n in refused <==> RefusedBefore(outcomes, k, n)
      invariant effects.log == old(effects.log) + AllDone(outcomes)
    {
      var m := moves[k];
      var o: Outcome;
      if m.to in refused {
        o := Outcome(m, false, false, NotAttempted);
      } else {
        var answer := effects.Dispatch(m);
        o := Outcome(m, false, false, Attempted(answer));
        if answer == Refused {
          refused := refused + {m.to};
        } else if answer == Confirmed {
          var written := effects.Comment(m);
          effects.Emit(m);
          o := Outcome(m, true, written, Attempted(Confirmed));
        }
      }
      DoneIs(o);
      Extended(outcomes, o, moves);
      outcomes := outcomes + [o];
    }
  }

  lemma NothingYet(moves: seq<Move>)
    ensures Faithful([], moves) && AllDone([]) == [] && forall n :: !RefusedBefore([], 0, n)
  {
  }

  lemma DoneIs(o: Outcome)
    ensures o.disposition.NotAttempted? ==> Done(o) == []
    ensures o.disposition.Attempted? && !o.moved ==> Done(o) == [Dispatched(o.move, o.disposition.answer)]
    ensures o.disposition.Attempted? && o.moved ==>
      Done(o) == [Dispatched(o.move, o.disposition.answer)] + [Commented(o.move, o.commented)] + [Emitted(o.move)]
  {
  }

  lemma Extended(outcomes: seq<Outcome>, o: Outcome, moves: seq<Move>)
    requires |outcomes| < |moves| && Faithful(outcomes, moves) && o.move == moves[|outcomes|]
    requires o.disposition.NotAttempted? <==> RefusedBefore(outcomes, |outcomes|, o.move.to)
    requires o.moved <==> o.disposition == Attempted(Confirmed)
    ensures Faithful(outcomes + [o], moves)
    ensures forall n ::
      RefusedBefore(outcomes + [o], |outcomes| + 1, n) <==>
      (RefusedBefore(outcomes, |outcomes|, n) || (o.disposition == Attempted(Refused) && o.move.to == n))
    ensures AllDone(outcomes + [o]) == AllDone(outcomes) + Done(o)
  {
    hide AllDone, Done, RefusedBefore, Faithful;
    var k := |outcomes|;
    forall n
      ensures RefusedBefore(outcomes + [o], k + 1, n)
        <==> (RefusedBefore(outcomes, k, n) || (o.disposition == Attempted(Refused) && o.move.to == n))
    {
      RefusedStill(outcomes, o, k, n);
      RefusedNext(outcomes + [o], k, n);
    }
    FaithfulMore(outcomes, o, moves);
    DoneAppend(outcomes, o);
  }

  lemma FaithfulMore(outcomes: seq<Outcome>, o: Outcome, moves: seq<Move>)
    requires |outcomes| < |moves| && Faithful(outcomes, moves) && o.move == moves[|outcomes|]
    requires o.disposition.NotAttempted? <==> RefusedBefore(outcomes, |outcomes|, o.move.to)
    requires o.moved <==> o.disposition == Attempted(Confirmed)
    ensures Faithful(outcomes + [o], moves)
  {
    hide RefusedBefore;
    var all := outcomes + [o];
    forall i | 0 <= i < |all|
      ensures all[i].move == moves[i] && (all[i].moved <==> all[i].disposition == Attempted(Confirmed))
      ensures all[i].disposition.NotAttempted? <==> RefusedBefore(all, i, moves[i].to)
    {
      RefusedStill(outcomes, o, i, moves[i].to);
      assert i < |outcomes| ==> all[i] == outcomes[i];
    }
  }

  lemma DoneAppend(outcomes: seq<Outcome>, o: Outcome)
    ensures AllDone(outcomes + [o]) == AllDone(outcomes) + Done(o)
  {
    hide Done;
    assert (outcomes + [o])[..|outcomes|] == outcomes;
  }

  lemma RefusedStill(outcomes: seq<Outcome>, o: Outcome, j: nat, n: Name)
    requires j <= |outcomes|
    ensures RefusedBefore(outcomes + [o], j, n) <==> RefusedBefore(outcomes, j, n)
  {
    assert forall i | 0 <= i < j :: (outcomes + [o])[i] == outcomes[i];
  }

  lemma RefusedNext(all: seq<Outcome>, k: nat, n: Name)
    requires k < |all|
    ensures RefusedBefore(all, k + 1, n)
      <==> (RefusedBefore(all, k, n) || (all[k].disposition == Attempted(Refused) && all[k].move.to == n))
  {
  }

  function Dispatches(log: seq<Effect>): seq<Move> {
    if log == [] then []
    else Dispatches(log[..|log| - 1]) + (if log[|log| - 1].Dispatched? then [log[|log| - 1].move] else [])
  }

  /** Each move is dispatched at most once, in order: what was dispatched is the attempted moves, one each. */
  lemma {:induction false} DispatchedOnce(outcomes: seq<Outcome>)
    ensures Dispatches(AllDone(outcomes)) == AttemptedMoves(outcomes)
  {
    if outcomes != [] {
      var o, before := outcomes[|outcomes| - 1], outcomes[..|outcomes| - 1];
      DispatchedOnce(before);
      var log := AllDone(before);
      if o.disposition.Attempted? {
        DispatchesAppend(log, Dispatched(o.move, o.disposition.answer));
        var log1 := log + [Dispatched(o.move, o.disposition.answer)];
        if o.moved {
          DispatchesAppend(log1, Commented(o.move, o.commented));
          DispatchesAppend(log1 + [Commented(o.move, o.commented)], Emitted(o.move));
          assert log + Done(o) == log1 + [Commented(o.move, o.commented)] + [Emitted(o.move)];
        } else {
          assert log + Done(o) == log1;
        }
      } else {
        assert log + Done(o) == log;
      }
    }
  }

  lemma DispatchesAppend(log: seq<Effect>, e: Effect)
    ensures Dispatches(log + [e]) == Dispatches(log) + (if e.Dispatched? then [e.move] else [])
  {
    assert (log + [e])[..|log|] == log;
  }

  function AttemptedMoves(outcomes: seq<Outcome>): seq<Move> {
    if outcomes == [] then []
    else
      var o := outcomes[|outcomes| - 1];
      AttemptedMoves(outcomes[..|outcomes| - 1]) + (if o.disposition.Attempted? then [o.move] else [])
  }
}
