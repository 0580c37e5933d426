/**
 WebSocket frames as sections 5.2 and 5.3 of RFC 6455 define them, read off a whole stream of bytes.
 This is the reference that shantytown/codex_shells.py, which sees the stream in pieces, is held to.
 */
module WebSocketFrames {
  import opened Basics

  type Byte = x: int | 0 <= x < 256

  datatype Header = Header(fin: bool, rsv: nat, opcode: nat, masked: bool, size: nat, extension: nat)

  datatype Frame = Frame(fin: bool, rsv: nat, opcode: nat, masked: bool, payload: seq<Byte>)

  // ---------- numbers in network byte order ----------

  function Number(bs: seq<Byte>): nat {
    if bs == [] then 0 else Number(bs[..|bs| - 1]) * 256 + bs[|bs| - 1]
  }

  function BigEndian(n: nat, width: nat): (bs: seq<Byte>)
    ensures |bs| == width
  {
    if width == 0 then [] else BigEndian(n / 256, width - 1) + [n % 256]
  }

  function Bound(width: nat): (b: nat)
    ensures b >= 1
  {
    if width == 0 then 1 else 256 * Bound(width - 1)
  }

  lemma {:induction false} NumberOfBigEndian(n: nat, width: nat)
    requires n < Bound(width)
    ensures Number(BigEndian(n, width)) == n
  {
    if width > 0 {
      NumberOfBigEndian(n / 256, width - 1);
      var bs := BigEndian(n, width);
      assert bs[..|bs| - 1] == BigEndian(n / 256, width - 1);
    }
  }

  // ---------- masking, section 5.3 ----------

  /** Exclusive or, bit by bit. */
  function Xor(a: nat, b: nat): nat {
    if a == 0 && b == 0 then 0 else 2 * Xor(a / 2, b / 2) + (if a % 2 == b % 2 then 0 else 1)
  }

  lemma {:induction false} XorFits(a: nat, b: nat, bound: nat, bits: nat)
    requires bound == Two(bits) && a < bound && b < bound
    ensures Xor(a, b) < bound
    decreases bits
  {
    if bits > 0 { XorFits(a / 2, b / 2, Two(bits - 1), bits - 1); }
  }

  function Two(bits: nat): nat {
    if bits == 0 then 1 else 2 * Two(bits - 1)
  }

  lemma {:induction false} XorTwice(a: nat, b: nat)
    ensures Xor(Xor(a, b), b) == a
  {
    if !(a == 0 && b == 0) {
      XorTwice(a / 2, b / 2);
      var x := Xor(a, b);
      assert x / 2 == Xor(a / 2, b / 2);
    }
  }

  /** The bit of this weight, counted from the lowest. */
  predicate Bit(n: nat, i: nat) {
    if i == 0 then n % 2 == 1 else Bit(n / 2, i - 1)
  }

  /** A bit is set exactly when it is set in one of the two. */
  lemma {:induction false} XorBits(a: nat, b: nat, i: nat)
    ensures Bit(Xor(a, b), i) <==> Bit(a, i) != Bit(b, i)
    decreases i
  {
    var x := Xor(a, b);
    assert x / 2 == Xor(a / 2, b / 2);
    if i > 0 { XorBits(a / 2, b / 2, i - 1); }
  }

  /** Octet i of the data is transformed with octet i modulo 4 of the key. */
  lemma MaskedAt(key: seq<Byte>, data: seq<Byte>, i: nat, bit: nat)
    requires |key| == 4 && i < |data|
    ensures Bit(Masked(key, data)[i], bit) <==> Bit(data[i], bit) != Bit(key[i % 4], bit)
  {
    XorBits(data[i], key[i % 4], bit);
  }

  function XorByte(a: Byte, b: Byte): Byte {
    XorFits(a, b, 256, 8);
    Xor(a, b)
  }

  function Masked(key: seq<Byte>, data: seq<Byte>): (masked: seq<Byte>)
    requires |key| == 4
    ensures |masked| == |data|
  {
    seq(|data|, i requires 0 <= i < |data| => XorByte(data[i], key[i % 4]))
  }

  lemma MaskedTwice(key: seq<Byte>, data: seq<Byte>)
    requires |key| == 4
    ensures Masked(key, Masked(key, data)) == data
  {
    forall i | 0 <= i < |data| ensures Masked(key, Masked(key, data))[i] == data[i] {
      XorTwice(data[i], key[i % 4]);
    }
  }

  // ---------- reading, section 5.2 ----------

  function Extension(size7: nat): nat {
    if size7 == 126 then 2 else if size7 == 127 then 8 else 0
  }

  /** The length is written in the fewest bytes that hold it. */
  predicate Minimal(size: nat, extension: nat) {
    extension == if size < 126 then 0 else if size < 65536 then 2 else 8
  }

  function ReadHeader(s: seq<Byte>): (read: Option<(Header, seq<Byte>)>)
    ensures read.Some? ==> |read.value.1| + 2 + read.value.0.extension == |s|
  {
    if |s| < 2 then None
    else
      var size7 := s[1] % 128;
      var extension := Extension(size7);
      if |s| < 2 + extension then None
      else
        var size := if extension == 0 then size7 else Number(s[2..2 + extension]);
        Some((Header(s[0] >= 128, s[0] / 16 % 8, s[0] % 16, s[1] >= 128, size, extension), s[2 + extension..]))
  }

  /** What follows a header: the key, when there is one, and the payload. */
  function ReadPayload(h: Header, rest: seq<Byte>): (read: Option<(Frame, seq<Byte>)>)
    ensures read.Some? ==> |read.value.1| <= |rest|
  {
    var keyed := if h.masked then 4 else 0;
    if |rest| < keyed + h.size then None
    else
      var data := rest[keyed..keyed + h.size];
      var payload := if h.masked then Masked(rest[..4], data) else data;
      Some((Frame(h.fin, h.rsv, h.opcode, h.masked, payload), rest[keyed + h.size..]))
  }

  function ReadFrame(s: seq<Byte>): (read: Option<(Frame, seq<Byte>)>)
    ensures read.Some? ==> |read.value.1| < |s|
  {
    var head := ReadHeader(s);
    if head.None? then None else ReadPayload(head.value.0, head.value.1)
  }

  /** All frames of a stream that ends where a frame ends. */
  function ReadAll(s: seq<Byte>): (frames: Option<seq<Frame>>)
    decreases |s|
  {
    if s == [] then Some([])
    else
      var first := ReadFrame(s);
      if first.None? then None
      else
        var rest := ReadAll(first.value.1);
        if rest.None? then None else Some([first.value.0] + rest.value)
  }

  lemma ReadHeaderStable(s: seq<Byte>, more: seq<Byte>)
    requires ReadHeader(s).Some?
    ensures ReadHeader(s + more) == Some((ReadHeader(s).value.0, ReadHeader(s).value.1 + more))
  {
    hide Number;
    var (h, rest) := ReadHeader(s).value;
    assert h.extension > 0 ==> (s + more)[2..2 + h.extension] == s[2..2 + h.extension];
    assert (s + more)[2 + h.extension..] == rest + more;
  }

  lemma ReadPayloadStable(h: Header, rest: seq<Byte>, more: seq<Byte>)
    requires ReadPayload(h, rest).Some?
    ensures ReadPayload(h, rest + more) == Some((ReadPayload(h, rest).value.0, ReadPayload(h, rest).value.1 + more))
  {
    hide Masked;
    var keyed := if h.masked then 4 else 0;
    assert (rest + more)[keyed..keyed + h.size] == rest[keyed..keyed + h.size];
    assert h.masked ==> (rest + more)[..4] == rest[..4];
    assert (rest + more)[keyed + h.size..] == rest[keyed + h.size..] + more;
  }

  /** What comes after a frame does not change how it reads. */
  lemma ReadFrameStable(s: seq<Byte>, more: seq<Byte>)
    requires ReadFrame(s).Some?
    ensures ReadFrame(s + more).Some?
    ensures ReadFrame(s + more).value.0 == ReadFrame(s).value.0
    ensures ReadFrame(s + more).value.1 == ReadFrame(s).value.1 + more
  {
    hide ReadHeader, ReadPayload;
    var (h, rest) := ReadHeader(s).value;
    ReadHeaderStable(s, more);
    ReadPayloadStable(h, rest, more);
  }

  lemma {:induction false} ReadAllAppend(s: seq<Byte>, more: seq<Byte>)
    requires ReadAll(s).Some? && ReadAll(more).Some?
    ensures ReadAll(s + more) == Some(ReadAll(s).value + ReadAll(more).value)
    decreases |s|
  {
    hide ReadFrame;
    if s == [] {
      assert s + more == more;
      assert [] + ReadAll(more).value == ReadAll(more).value;
    } else {
      ReadFrameStable(s, more);
      var rest := ReadFrame(s).value.1;
      ReadAllAppend(rest, more);
      var all := ReadAll(s).value;
      assert all == [ReadFrame(s).value.0] + ReadAll(rest).value;
      assert all + ReadAll(more).value == [ReadFrame(s).value.0] + (ReadAll(rest).value + ReadAll(more).value);
    }
  }
}
