/**
 The methods of `_Socket` in shantytown/codex_shells.py, proved against what `CodexSocket` says about
 the whole stream: however `recv` cuts it up, a request makes the same of it.
 */
module CodexRequest {
  import opened Basics
  import opened WebSocketFrames
  import opened CodexSocket

  // ---------- what send writes ----------

  function SentHeader(opcode: nat, size: nat): seq<Byte>
    requires opcode < 16 && size <= MAX_BYTES
  {
    if size < 126 then [128 + opcode, 128 + size]
    else if size < 65536 then [128 + opcode, 254] + BigEndian(size, 2)
    else [128 + opcode, 255] + BigEndian(size, 8)
  }

  lemma SentHeaderReads(opcode: nat, size: nat, after: seq<Byte>)
    requires opcode < 16 && size <= MAX_BYTES
    ensures var read := ReadHeader(SentHeader(opcode, size) + after);
      && read.Some? && read.value.0 == Header(true, 0, opcode, true, size, read.value.0.extension)
      && Minimal(size, read.value.0.extension) && read.value.1 == after
  {
    hide Number, BigEndian;
    assert Bound(2) == 65536 && Bound(8) > MAX_BYTES;
    var extension := if size < 126 then 0 else if size < 65536 then 2 else 8;
    var header := SentHeader(opcode, size);
    var s := header + after;
    assert s[1] == 128 + (if extension == 0 then size else if extension == 2 then 126 else 127);
    if extension > 0 {
      NumberOfBigEndian(size, extension);
      assert s[2..2 + extension] == BigEndian(size, extension);
    }
    assert s[2 + extension..] == after;
  }

  /** A sent frame reads back as what was sent, with the length in the fewest bytes. */
  lemma SentReads(opcode: nat, data: seq<Byte>, key: seq<Byte>)
    requires opcode < 16 && |data| <= MAX_BYTES && |key| == 4
    ensures ReadAll(SentHeader(opcode, |data|) + key + Masked(key, data)) == Some([Frame(true, 0, opcode, true, data)])
    ensures var head := ReadHeader(SentHeader(opcode, |data|) + key + Masked(key, data));
      head.Some? && Minimal(|data|, head.value.0.extension)
  {
    hide ReadHeader, SentHeader, Masked;
    var after := key + Masked(key, data);
    var s := SentHeader(opcode, |data|) + after;
    assert s == SentHeader(opcode, |data|) + key + Masked(key, data);
    SentHeaderReads(opcode, |data|, after);
    MaskedTwice(key, data);
    var h := ReadHeader(s).value.0;
    assert after[..4] == key && after[4..4 + h.size] == Masked(key, data) && after[4 + h.size..] == [];
    var f := Frame(true, 0, opcode, true, data);
    assert ReadPayload(h, after).value.0 == f;
    assert ReadAll([]) == Some([]) && [f] + [] == [f];
  }

  lemma OutOfTurns(s: seq<Byte>, read: seq<Byte> -> Message, number: int, total: nat)
    ensures Exchange(s, read, number, 0, total).outcome == Failed(TooManyFrames)
  {
  }

  /** The bytes sent since are the request and the pongs for these frames. */
  ghost predicate Wrote(before: seq<Byte>, after: seq<Byte>, request: seq<Byte>, frames: seq<Frame>) {
    before <= after && ReadAll(after[|before|..]) == Some([Frame(true, 0, 1, true, request)] + Pongs(frames))
  }

  /** The whole exchange is these frames and then the rest of it. */
  ghost predicate Continues(whole: Exchanged, seen: seq<Frame>, later: Exchanged) {
    whole == Exchanged(later.outcome, later.rest, seen + later.frames)
  }

  lemma Judged(f: Frame, rest: seq<Byte>, read: seq<Byte> -> Message, number: int)
    requires Plain(f)
    ensures IsPing(f) <==> f.opcode == 9 && |f.payload| <= 125
    ensures var turn := Judge(f, rest, read, number);
      if IsPing(f) then turn == GoOn(f, rest)
      else if f.opcode != 1 then turn == Stop(NotText)
      else if !read(f.payload).Object? then turn == Stop(Malformed)
      else if read(f.payload).id != Some(number) then turn == GoOn(f, rest)
      else if read(f.payload).result.None? then turn == Stop(RefusedByPeer)
      else turn == Reply(read(f.payload).result.value, f, rest)
  {
  }

  lemma Starting(whole: Exchanged)
    ensures Continues(whole, [], whole)
  {
    assert [] + whole.frames == whole.frames;
  }

  lemma Ending(whole: Exchanged, seen: seq<Frame>, later: Exchanged)
    requires Continues(whole, seen, later)
    ensures whole == Exchanged(later.outcome, later.rest, seen + later.frames)
  {
  }

  lemma Continued(whole: Exchanged, seen: seq<Frame>, f: Frame, later: Exchanged)
    requires Continues(whole, seen, Exchanged(later.outcome, later.rest, [f] + later.frames))
    ensures Continues(whole, seen + [f], later)
  {
    assert (seen + [f]) + later.frames == seen + ([f] + later.frames);
  }

  lemma WroteNothingMore(before: seq<Byte>, after: seq<Byte>, request: seq<Byte>)
    requires before <= after && ReadAll(after[|before|..]) == Some([Frame(true, 0, 1, true, request)])
    ensures Wrote(before, after, request, [])
  {
    hide ReadAll;
    assert [Frame(true, 0, 1, true, request)] + Pongs([]) == [Frame(true, 0, 1, true, request)];
  }

  lemma WroteOn(before: seq<Byte>, after: seq<Byte>, request: seq<Byte>, frames: seq<Frame>, f: Frame)
    requires Wrote(before, after, request, frames) && !IsPing(f)
    ensures Wrote(before, after, request, frames + [f])
  {
    hide ReadAll;
    PongsAppend(frames, f);
    assert Pongs(frames) + [] == Pongs(frames);
  }

  lemma WrotePong(before: seq<Byte>, middle: seq<Byte>, after: seq<Byte>, request: seq<Byte>, frames: seq<Frame>,
                  f: Frame)
    requires Wrote(before, middle, request, frames) && IsPing(f)
    requires middle <= after && ReadAll(after[|middle|..]) == Some([Frame(true, 0, 10, true, f.payload)])
    ensures Wrote(before, after, request, frames + [f])
  {
    hide ReadAll;
    SentMore(before, middle, after);
    PongsAppend(frames, f);
    var text, pong := Frame(true, 0, 1, true, request), Frame(true, 0, 10, true, f.payload);
    assert ([text] + Pongs(frames)) + [pong] == [text] + (Pongs(frames) + [pong]);
  }

  lemma HeaderIs(opcode: nat, size: nat, header: seq<Byte>)
    requires opcode < 16 && size <= MAX_BYTES
    requires header == if size < 126 then [128 + opcode, 128 + size]
                       else if size < 65536 then [128 + opcode, 128 + 126] + BigEndian(size, 2)
                       else [128 + opcode, 128 + 127] + BigEndian(size, 8)
    ensures header == SentHeader(opcode, size)
  {
  }

  lemma {:induction false} PongsAppend(frames: seq<Frame>, f: Frame)
    ensures Pongs(frames + [f]) == Pongs(frames) + (if IsPing(f) then [Frame(true, 0, 10, true, f.payload)] else [])
  {
    PongIs(f);
    hide IsPing, Pong;
    var all := frames + [f];
    if frames == [] {
      assert all[0] == f && all[1..] == [];
    } else {
      var rest := frames[1..];
      assert all[0] == frames[0] && all[1..] == rest + [f];
      PongsAppend(rest, f);
      hide Pongs;
      PongsFirst(frames);
      PongsFirst(all);
      var last := Pong(f);
      assert Pong(frames[0]) + (Pongs(rest) + last) == (Pong(frames[0]) + Pongs(rest)) + last;
    }
  }

  lemma PongsFirst(frames: seq<Frame>)
    requires frames != []
    ensures Pongs(frames) == Pong(frames[0]) + Pongs(frames[1..])
  {
  }

  /** Two stretches of sent frames read as one. */
  lemma SentMore(s0: seq<Byte>, s1: seq<Byte>, s2: seq<Byte>)
    requires s0 <= s1 <= s2 && ReadAll(s1[|s0|..]).Some? && ReadAll(s2[|s1|..]).Some?
    ensures ReadAll(s2[|s0|..]) == Some(ReadAll(s1[|s0|..]).value + ReadAll(s2[|s1|..]).value)
  {
    hide ReadAll;
    ReadAllAppend(s1[|s0|..], s2[|s1|..]);
    assert s2[|s0|..] == s1[|s0|..] + s2[|s1|..];
  }

  // ---------- the socket ----------

  class Socket {
    const read: seq<Byte> -> Message       // what the JSON reader makes of a text
    const patient: bool                    // no deadline passes and no send fails
    var buffer: seq<Byte>
    var wire: seq<Byte>                    // what the peer has still to deliver
    var sent: seq<Byte>

    constructor (reader: seq<Byte> -> Message, isPatient: bool, leftover: seq<Byte>, coming: seq<Byte>)
      ensures read == reader && patient == isPatient && buffer == leftover && wire == coming && sent == []
    {
      read, patient, buffer, wire, sent := reader, isPatient, leftover, coming, [];
    }

    /** The whole stream from here. */
    function Pending(): seq<Byte> reads this {
      buffer + wire
    }

    /** `_receive`: some of what is coming, at most `size` bytes of it; false at the end of the
        stream, and when the deadline passes. */
    method Receive(size: nat) returns (ok: bool)
      requires size > 0
      modifies this`buffer, this`wire
      ensures Pending() == old(Pending())
      ensures ok ==> |old(buffer)| < |buffer| <= |old(buffer)| + size && |wire| < |old(wire)|
      ensures !ok ==> buffer == old(buffer) && (patient ==> wire == [])
    {
      var late: bool := *;
      if late && !patient { return false; }
      if wire == [] { return false; }
      var n: int := *;
      if n < 1 || n > size || n > |wire| { n := 1; }
      assert buffer + wire == (buffer + wire[..n]) + wire[n..];
      buffer, wire := buffer + wire[..n], wire[n..];
      return true;
    }

    /** `_take`: exactly the next `size` bytes of the stream. */
    method Take(size: nat) returns (out: Option<seq<Byte>>)
      modifies this`buffer, this`wire
      ensures out.Some? ==>
        |old(Pending())| >= size && out.value == old(Pending())[..size] && Pending() == old(Pending())[size..]
      ensures out.None? && patient ==> |old(Pending())| < size
    {
      while |buffer| < size
        invariant Pending() == old(Pending())
        decreases |wire|
      {
        var ok := Receive(size - |buffer|);
        if !ok { return None; }
      }
      var all := Pending();
      assert buffer[..size] == all[..size];
      assert buffer[size..] + wire == all[size..];
      out := Some(buffer[..size]);
      buffer := buffer[size..];
    }

    /** `send`. */
    method Send(data: seq<Byte>, opcode: nat) returns (failure: Option<Failure>)
      requires opcode < 16
      modifies this`sent
      ensures |data| > 1048576 ==> failure == Some(TooLarge)
      ensures |data| <= 1048576 && failure.Some? ==> failure.value.Down? && !patient
      ensures failure.Some? ==> sent == old(sent)
      ensures failure.None? ==>
        old(sent) <= sent && ReadAll(sent[|old(sent)|..]) == Some([Frame(true, 0, opcode, true, data)])
      ensures failure.None? ==> Minimal(|data|, ReadHeader(sent[|old(sent)|..]).value.0.extension)
    {
      hide ReadAll, ReadHeader, SentHeader;
      var size := |data|;
      if size > MAX_BYTES { return Some(TooLarge); }
      var key: seq<Byte> := *;
      if |key| != 4 { key := [0, 0, 0, 0]; }
      var header: seq<Byte>;
      if size < 126 {
        header := [128 + opcode, 128 + size];
      } else if size < 65536 {
        header := [128 + opcode, 128 + 126] + BigEndian(size, 2);
      } else {
        header := [128 + opcode, 128 + 127] + BigEndian(size, 8);
      }
      var late: bool := *;
      if late && !patient { return Some(Down); }
      SentReads(opcode, data, key);
      assert header == SentHeader(opcode, size) by { HeaderIs(opcode, size, header); }
      var bytes := header + key + Masked(key, data);
      assert (sent + bytes)[|sent|..] == bytes;
      sent := sent + bytes;
      return None;
    }

    /** The header of the next frame. */
    method NextHeader() returns (head: Option<Header>)
      modifies this`buffer, this`wire
      ensures head.Some? ==> ReadHeader(old(Pending())) == Some((head.value, Pending()))
      ensures head.None? && patient ==> ReadHeader(old(Pending())).None?
    {
      hide Number;
      ghost var s := Pending();
      var two := Take(2);
      if two.None? { return None; }
      var first, second := two.value[0], two.value[1];
      var size: nat := second % 128;
      ghost var rest := Pending();
      assert rest == s[2..];
      if size == 126 {
        var more := Take(2);
        if more.None? { return None; }
        assert s[2..4] == rest[..2] && s[4..] == rest[2..];
        size := Number(more.value);
      } else if size == 127 {
        var more := Take(8);
        if more.None? { return None; }
        assert s[2..10] == rest[..8] && s[10..] == rest[8..];
        size := Number(more.value);
      }
      return Some(Header(first >= 128, first / 16 % 8, first % 16, second >= 128, size, Extension(second % 128)));
    }

    /** The part of a turn that reads a frame: the header, the caps, the body. */
    method NextFrame(total: nat, ghost number: int) returns (failure: Option<Failure>, f: Frame)
      modifies this`buffer, this`wire
      ensures failure.Some? ==>
        OneTurn(old(Pending()), read, number, total) == Stop(failure.value) || (failure.value.Down? && !patient)
      ensures failure.None? ==>
        Plain(f) && OneTurn(old(Pending()), read, number, total) == Judge(f, Pending(), read, number)
    {
      hide Judge, ReadHeader;
      f := Frame(true, 0, 0, false, []);
      var head := NextHeader();
      if head.None? { return Some(Down), f; }
      var h := head.value;
      if total + h.size > MAX_BYTES || h.masked || h.rsv != 0 || !h.fin { return Some(Unsupported), f; }
      ghost var rest := Pending();
      var body := Take(h.size);
      if body.None? { return Some(Down), f; }
      assert rest[0..0 + h.size] == rest[..h.size];
      f := Frame(true, 0, h.opcode, false, body.value);
      return None, f;
    }

    /** `request`: the stream comes in any pieces, and the outcome is what the whole stream says.
        After an answer the stream stands right behind the frame that gave it, and what was sent is
        the request and one pong for each ping. */
    method Request(number: int, request: seq<Byte>) returns (outcome: Outcome)
      modifies this
      ensures |request| > 1048576 ==> outcome == Failed(TooLarge)
      ensures |request| <= 1048576 ==>
        outcome == Exchange(old(Pending()), read, number, 100, 0).outcome
        || (outcome == Failed(Down) && !patient)
      ensures outcome.Answer? ==> Pending() == Exchange(old(Pending()), read, number, 100, 0).rest
      ensures outcome.Answer? ==>
        Wrote(old(sent), sent, request, Exchange(old(Pending()), read, number, 100, 0).frames)
    {
      hide Exchange, Judge, Wrote, IsPing, OneTurn, Continues, ReadAll, ReadHeader, Plain;
      var failure := Send(request, 1);
      if failure.Some? { return Failed(failure.value); }
      WroteNothingMore(old(sent), sent, request);
      var total: nat := 0;
      ghost var s0 := Pending();
      ghost var seen: seq<Frame> := [];
      ghost var whole := Exchange(s0, read, number, MAX_FRAMES, 0);
      Starting(whole);
      for k := 0 to MAX_FRAMES
        invariant Wrote(old(sent), sent, request, seen)
        invariant Continues(whole, seen, Exchange(Pending(), read, number, MAX_FRAMES - k, total))
      {
        ghost var s, sent1, seen1 := Pending(), sent, seen;
        var f: Frame;
        failure, f := NextFrame(total, number);
        ExchangeTurn(s, read, number, MAX_FRAMES - k, total);
        Ending(whole, seen, Exchange(s, read, number, MAX_FRAMES - k, total));
        if failure.Some? { return Failed(failure.value); }
        Judged(f, Pending(), read, number);
        seen := seen1 + [f];
        if Judge(f, Pending(), read, number).GoOn? {
          Continued(whole, seen1, f, Exchange(Pending(), read, number, MAX_FRAMES - k - 1, total + |f.payload|));
        }
        if f.opcode == 9 && |f.payload| <= 125 {
          failure := Send(f.payload, 10);
          if failure.Some? { return Failed(Down); }
          WrotePong(old(sent), sent1, sent, request, seen1, f);
        } else {
          WroteOn(old(sent), sent, request, seen1, f);
          if f.opcode != 1 { return Failed(NotText); }
          var message := read(f.payload);
          if !message.Object? { return Failed(Malformed); }
          if message.id == Some(number) {
            if message.result.None? { return Failed(RefusedByPeer); }
            return Answer(message.result.value);
          }
        }
        total := total + |f.payload|;
      }
      Ending(whole, seen, Exchange(Pending(), read, number, 0, total));
      OutOfTurns(Pending(), read, number, total);
      return Failed(TooManyFrames);
    }
  }
}
