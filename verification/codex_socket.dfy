/**
 `_Socket` of shantytown/codex_shells.py: a buffer filled by `recv` in pieces of any size, frames
 sent masked, and a request that reads frames until one of them answers it.
 */
module CodexSocket {
  import opened Basics
  import opened WebSocketFrames

  const MAX_BYTES: nat := 1048576
  const MAX_FRAMES: nat := 100

  /** What the JSON reader makes of a text frame. `result` is None when the reply is an error
      or carries no result object. */
  datatype Message = Unreadable | NotAnObject | Object(id: Option<int>, result: Option<int>)

  datatype Failure =
    | Down             // a deadline, the end of the stream, or a send that raised
    | Unsupported
    | NotText
    | Malformed
    | RefusedByPeer
    | TooManyFrames
    | TooLarge         // the request itself

  datatype Outcome = Answer(result: int) | Failed(why: Failure)

  // ---------- what a request should make of a stream ----------

  predicate Plain(f: Frame) {
    f.fin && f.rsv == 0 && !f.masked
  }

  predicate IsPing(f: Frame) {
    Plain(f) && f.opcode == 9 && |f.payload| <= 125
  }

  /** A frame a request reads and goes on from: a ping, or a text that answers something else. */
  predicate Skipped(f: Frame, read: seq<Byte> -> Message, number: int) {
    && f.fin && f.rsv == 0 && !f.masked
    && ((f.opcode == 9 && |f.payload| <= 125)
        || (f.opcode == 1 && read(f.payload).Object? && read(f.payload).id != Some(number)))
  }

  predicate Answers(f: Frame, read: seq<Byte> -> Message, number: int, result: int) {
    f.fin && f.rsv == 0 && !f.masked && f.opcode == 1 && read(f.payload) == Object(Some(number), Some(result))
  }

  function Sizes(frames: seq<Frame>): nat {
    if frames == [] then 0 else |frames[0].payload| + Sizes(frames[1..])
  }

  /** The pong owed for one frame: the same payload, when it is a whole, plain and short ping. */
  function Pong(f: Frame): seq<Frame> {
    if f.fin && f.rsv == 0 && !f.masked && f.opcode == 9 && |f.payload| <= 125
    then [Frame(true, 0, 10, true, f.payload)] else []
  }

  lemma PongIs(f: Frame)
    ensures Pong(f) == if IsPing(f) then [Frame(true, 0, 10, true, f.payload)] else []
  {
  }

  /** The pongs owed for the pings among these. */
  function Pongs(frames: seq<Frame>): seq<Frame> {
    if frames == [] then []
    else Pong(frames[0]) + Pongs(frames[1..])
  }

  /** The first frame that answers is the last of these, and they are within the caps. */
  ghost predicate Conversation(frames: seq<Frame>, read: seq<Byte> -> Message, number: int, result: int, left: nat,
                               total: nat) {
    && 0 < |frames| <= left && total + Sizes(frames) <= 1048576
    && (forall i | 0 <= i < |frames| - 1 :: Skipped(frames[i], read, number))
    && Answers(frames[|frames| - 1], read, number, result)
  }

  datatype Turn = Stop(why: Failure) | GoOn(frame: Frame, rest: seq<Byte>)
      | Reply(result: int, frame: Frame, rest: seq<Byte>)

  /** One frame of a request, against the whole stream. */
  function OneTurn(s: seq<Byte>, read: seq<Byte> -> Message, number: int, total: nat): Turn {
    var head := ReadHeader(s);
    if head.None? then Stop(Down)
    else
      var (h, after) := head.value;
      if total + h.size > MAX_BYTES || h.masked || h.rsv != 0 || !h.fin then Stop(Unsupported)
      else
        var payload := ReadPayload(h, after);
        if payload.None? then Stop(Down)
        else Judge(payload.value.0, payload.value.1, read, number)
  }

  function Judge(f: Frame, rest: seq<Byte>, read: seq<Byte> -> Message, number: int): Turn {
    if IsPing(f) then GoOn(f, rest)
    else if f.opcode != 1 then Stop(NotText)
    else
      match read(f.payload)
      case Unreadable | NotAnObject => Stop(Malformed)
      case Object(id, result) =>
        if id != Some(number) then GoOn(f, rest)
        else if result.None? then Stop(RefusedByPeer)
        else Reply(result.value, f, rest)
  }

  datatype Exchanged = Exchanged(outcome: Outcome, rest: seq<Byte>, frames: seq<Frame>)

  /** A request against the whole stream: its outcome, the bytes after it, the frames it read. */
  function Exchange(s: seq<Byte>, read: seq<Byte> -> Message, number: int, left: nat, total: nat): Exchanged
    decreases left
  {
    if left == 0 then Exchanged(Failed(TooManyFrames), s, [])
    else
      match OneTurn(s, read, number, total)
      case Stop(why) => Exchanged(Failed(why), s, [])
      case Reply(result, f, rest) => Exchanged(Answer(result), rest, [f])
      case GoOn(f, rest) =>
        var later := Exchange(rest, read, number, left - 1, total + |f.payload|);
        later.(frames := [f] + later.frames)
  }

  /** A turn gets through exactly when the stream starts with a whole frame that may be read. */
  lemma TurnReads(s: seq<Byte>, read: seq<Byte> -> Message, number: int, total: nat)
    ensures var turn, frame := OneTurn(s, read, number, total), ReadFrame(s);
      && (!turn.Stop? ==> frame == Some((turn.frame, turn.rest)) && total + |turn.frame.payload| <= MAX_BYTES)
      && (turn.GoOn? ==> Skipped(turn.frame, read, number))
      && (turn.Reply? ==> Answers(turn.frame, read, number, turn.result))
      && (frame.Some? && total + |frame.value.0.payload| <= MAX_BYTES ==>
            && (Skipped(frame.value.0, read, number) ==> turn == GoOn(frame.value.0, frame.value.1))
            && (forall r :: Answers(frame.value.0, read, number, r) ==> turn == Reply(r, frame.value.0, frame.value.1)))
  {
    hide ReadHeader, Masked;
  }

  /** Frames that make up a conversation are answered, whatever bytes follow them. */
  lemma {:induction false} ConversationAnswered(bytes: seq<Byte>, more: seq<Byte>, read: seq<Byte> -> Message,
                                                number: int, result: int, left: nat, total: nat)
    requires ReadAll(bytes).Some? && Conversation(ReadAll(bytes).value, read, number, result, left, total)
    ensures Exchange(bytes + more, read, number, left, total) == Exchanged(Answer(result), more, ReadAll(bytes).value)
    decreases left
  {
    hide OneTurn, ReadFrame, ReadAll, Skipped, Answers, Exchange;
    var frames := ReadAll(bytes).value;
    var f, rest := FirstRead(bytes);
    var tail := ReadAll(rest).value;
    ReadFrameStable(bytes, more);
    TurnReads(bytes + more, read, number, total);
    ExchangeTurn(bytes + more, read, number, left, total);
    assert frames[0] == f && frames[1..] == tail;
    if |frames| == 1 {
      ReadsNothing(rest);
      assert rest + more == more && frames == [f];
    } else {
      assert Skipped(frames[0], read, number);
      assert forall i | 0 <= i < |tail| :: tail[i] == frames[i + 1];
      ConversationAnswered(rest, more, read, number, result, left - 1, total + |f.payload|);
    }
  }

  lemma FirstRead(bytes: seq<Byte>) returns (f: Frame, rest: seq<Byte>)
    requires ReadAll(bytes).Some? && ReadAll(bytes).value != []
    ensures ReadFrame(bytes) == Some((f, rest)) && ReadAll(rest).Some?
    ensures ReadAll(bytes).value == [f] + ReadAll(rest).value
  {
    hide ReadFrame;
    f, rest := ReadFrame(bytes).value.0, ReadFrame(bytes).value.1;
  }

  /** A turn, and what it makes of the whole exchange. */
  lemma ExchangeTurn(s: seq<Byte>, read: seq<Byte> -> Message, number: int, left: nat, total: nat)
    requires left > 0
    ensures var whole := Exchange(s, read, number, left, total);
      match OneTurn(s, read, number, total)
      case Stop(why) => whole.outcome == Failed(why)
      case Reply(result, f, rest) => whole == Exchanged(Answer(result), rest, [f])
      case GoOn(f, rest) =>
        var later := Exchange(rest, read, number, left - 1, total + |f.payload|);
        whole == Exchanged(later.outcome, later.rest, [f] + later.frames)
  {
    hide OneTurn;
  }

  lemma ReadsNothing(s: seq<Byte>)
    requires ReadAll(s) == Some([])
    ensures s == []
  {
  }

  /** And only such frames are answered. */
  lemma {:induction false} AnsweredConversation(s: seq<Byte>, read: seq<Byte> -> Message, number: int, left: nat,
                                                total: nat) returns (bytes: seq<Byte>)
    requires Exchange(s, read, number, left, total).outcome.Answer?
    ensures var e := Exchange(s, read, number, left, total);
      && s == bytes + e.rest && ReadAll(bytes) == Some(e.frames)
      && Conversation(e.frames, read, number, e.outcome.result, left, total)
    decreases left
  {
    hide OneTurn, ReadFrame, ReadAll, Skipped, Answers, Conversation;
    var e := Exchange(s, read, number, left, total);
    TurnReads(s, read, number, total);
    var turn := OneTurn(s, read, number, total);
    bytes := Consumed(s);
    if turn.GoOn? {
      var total' := total + |turn.frame.payload|;
      var later := AnsweredConversation(turn.rest, read, number, left - 1, total');
      var e' := Exchange(turn.rest, read, number, left - 1, total');
      assert bytes + (later + e.rest) == (bytes + later) + e.rest;
      ReadAllAppend(bytes, later);
      bytes := bytes + later;
      ConversationGrows(turn.frame, e'.frames, read, number, e'.outcome.result, left, total);
    } else {
      ConversationStarts(turn.frame, read, number, turn.result, left, total);
    }
  }

  lemma ConversationStarts(f: Frame, read: seq<Byte> -> Message, number: int, result: int, left: nat, total: nat)
    requires left > 0 && Answers(f, read, number, result) && total + |f.payload| <= MAX_BYTES
    ensures Conversation([f], read, number, result, left, total)
  {
    assert [f][1..] == [];
  }

  lemma ConversationGrows(f: Frame, frames: seq<Frame>, read: seq<Byte> -> Message, number: int, result: int, left: nat,
                          total: nat)
    requires left > 0 && Skipped(f, read, number)
    requires Conversation(frames, read, number, result, left - 1, total + |f.payload|)
    ensures Conversation([f] + frames, read, number, result, left, total)
  {
    hide Skipped, Answers;
    var all := [f] + frames;
    assert all[1..] == frames;
    assert forall i | 0 <= i < |frames| :: all[i + 1] == frames[i];
    forall i | 0 <= i < |all| - 1 ensures Skipped(all[i], read, number) {
      assert i > 0 ==> all[i] == frames[i - 1];
    }
  }

  /** The bytes of the first frame alone. */
  lemma Consumed(s: seq<Byte>) returns (piece: seq<Byte>)
    requires ReadFrame(s).Some?
    ensures s == piece + ReadFrame(s).value.1 && ReadAll(piece) == Some([ReadFrame(s).value.0])
  {
    hide ReadHeader, ReadPayload;
    var (h, after) := ReadHeader(s).value;
    var rest := ReadPayload(h, after).value.1;
    var own := PayloadAlone(h, after);
    piece := HeaderAlone(s, own);
    assert after[|own|..] == rest;
    assert ReadAll([]) == Some([]);
    assert [ReadFrame(s).value.0] + [] == [ReadFrame(s).value.0];
  }

  lemma PayloadAlone(h: Header, after: seq<Byte>) returns (own: seq<Byte>)
    requires ReadPayload(h, after).Some?
    ensures after == own + ReadPayload(h, after).value.1
    ensures ReadPayload(h, own) == Some((ReadPayload(h, after).value.0, []))
  {
    hide Masked;
    var keyed := if h.masked then 4 else 0;
    own := after[..keyed + h.size];
    assert own[keyed..keyed + h.size] == after[keyed..keyed + h.size];
    assert h.masked ==> own[..4] == after[..4];
    assert own[keyed + h.size..] == [];
  }

  lemma HeaderAlone(s: seq<Byte>, own: seq<Byte>) returns (piece: seq<Byte>)
    requires ReadHeader(s).Some? && own <= ReadHeader(s).value.1
    ensures s == piece + ReadHeader(s).value.1[|own|..]
    ensures ReadHeader(piece) == Some((ReadHeader(s).value.0, own))
  {
    hide Number;
    var (h, after) := ReadHeader(s).value;
    piece := s[..2 + h.extension + |own|];
    assert h.extension > 0 ==> piece[2..2 + h.extension] == s[2..2 + h.extension];
    assert piece[2 + h.extension..] == after[..|own|] == own;
    assert s[2 + h.extension + |own|..] == after[|own|..];
  }
}
