module IpcFraming {
  // Frames on a byte stream: a length prefix of four bytes, low byte first, and that many bytes.

  import opened Text

  type Bytes = seq<byte>

  const PREFIX := 4
  const WORD := 0x1_0000_0000
  const MAXIMUM_FRAME := 128 * 1024 * 1024
  const READ_CHUNK := 64 * 1024

  function Prefix(length: nat): (p: Bytes)
    requires length < WORD
    ensures |p| == PREFIX
  {
    [length % 256, length / 0x100 % 256, length / 0x1_0000 % 256, length / 0x100_0000]
  }

  /** What is sent of a payload: the length is a 32-bit number, and the copy is as long as the length says. */
  function Carried(payload: Bytes): Bytes {
    payload[..|payload| % WORD]
  }

  function FrameMessage(payload: Bytes): Bytes {
    Prefix(|Carried(payload)|) + Carried(payload)
  }

  function DecodeFrameLength(header: Bytes): nat
    requires |header| == PREFIX
  {
    var b0: int, b1: int, b2: int, b3: int := header[0], header[1], header[2], header[3];
    b0 + 0x100 * b1 + 0x1_0000 * b2 + 0x100_0000 * b3
  }

  lemma LengthRoundTrip(length: nat)
    requires length < WORD
    ensures DecodeFrameLength(Prefix(length)) == length
  {
    var a, b := length / 0x100, length / 0x1_0000;
    assert a / 0x100 == b;
    assert b / 0x100 == length / 0x100_0000;
  }

  lemma LengthsAreCanonical(header: Bytes)
    requires |header| == PREFIX
    ensures DecodeFrameLength(header) < WORD && Prefix(DecodeFrameLength(header)) == header
  {
    var b0: int, b1: int, b2: int, b3: int := header[0], header[1], header[2], header[3];
    var l2 := b2 + 0x100 * b3;
    var l1 := b1 + 0x100 * l2;
    Digit(b0, l1);
    Digit(b1, l2);
    Digit(b2, b3);
    Twice(b0 + 0x100 * l1);
    assert DecodeFrameLength(header) == b0 + 0x100 * l1;
    assert Prefix(b0 + 0x100 * l1) == [b0, b1, b2, b3] == header;
  }

  lemma Digit(low: int, high: int)
    requires 0 <= low < 0x100
    ensures (low + 0x100 * high) % 0x100 == low && (low + 0x100 * high) / 0x100 == high
  {
  }

  lemma Twice(x: nat)
    ensures x / 0x1_0000 == x / 0x100 / 0x100 && x / 0x100_0000 == x / 0x100 / 0x100 / 0x100
  {
  }

  // ----- A frame as a reader sees it -----

  datatype FrameRead = Completed(payload: Bytes, rest: Bytes) | Rejected | Short

  /** The first frame of a stream for a reader that takes at most `maximum` bytes of payload. */
  function ReadFrame(stream: Bytes, maximum: nat): FrameRead {
    if |stream| < PREFIX then Short
    else
      var length := DecodeFrameLength(stream[..PREFIX]);
      if length == 0 || length > maximum then Rejected
      else if |stream| < PREFIX + length then Short
      else Completed(stream[PREFIX..PREFIX + length], stream[PREFIX + length..])
  }

  /** A frame reads back as what it carries and leaves the stream at the next frame. */
  lemma ReadsFrameBack(payload: Bytes, rest: Bytes, maximum: nat)
    requires 0 < |Carried(payload)| <= maximum
    ensures ReadFrame(FrameMessage(payload) + rest, maximum) == Completed(Carried(payload), rest)
  {
    var stream := FrameMessage(payload) + rest;
    LengthRoundTrip(|Carried(payload)|);
    assert stream[..PREFIX] == Prefix(|Carried(payload)|);
    assert stream[PREFIX..PREFIX + |Carried(payload)|] == Carried(payload);
    assert stream[PREFIX + |Carried(payload)|..] == rest;
  }

  /** No proper beginning of a frame is taken for a frame. */
  lemma PartOfFrameIsShort(payload: Bytes, k: nat, maximum: nat)
    requires k < |FrameMessage(payload)| && 0 < |Carried(payload)| <= maximum
    ensures ReadFrame(FrameMessage(payload)[..k], maximum) == Short
  {
    LengthRoundTrip(|Carried(payload)|);
    if k >= PREFIX {
      assert FrameMessage(payload)[..k][..PREFIX] == Prefix(|Carried(payload)|);
    }
  }

  function Joined(payloads: seq<Bytes>): Bytes {
    if payloads == [] then [] else FrameMessage(payloads[0]) + Joined(payloads[1..])
  }

  function AllFrames(stream: Bytes, maximum: nat): seq<Bytes>
    decreases |stream|
  {
    match ReadFrame(stream, maximum)
    case Completed(payload, rest) => [payload] + AllFrames(rest, maximum)
    case Rejected => []
    case Short => []
  }

  /** Frames sent one behind another are read back one by one. */
  lemma {:induction false} ReadsAllFramesBack(payloads: seq<Bytes>, maximum: nat)
    requires forall p <- payloads :: 0 < |p| <= maximum && |p| < WORD
    ensures AllFrames(Joined(payloads), maximum) == payloads
    decreases |payloads|
  {
    if payloads != [] {
      assert Carried(payloads[0]) == payloads[0];
      ReadsFrameBack(payloads[0], Joined(payloads[1..]), maximum);
      ReadsAllFramesBack(payloads[1..], maximum);
    }
  }

  // ----- Sockets -----

  /** One end of a connection: what has arrived and was not read yet, and what has been sent. How much
      one call moves, and whether it fails, is up to the system. */
  class Socket {
    var incoming: Bytes
    var outgoing: Bytes

    constructor (arrived: Bytes)
      ensures incoming == arrived && outgoing == []
    {
      incoming := arrived;
      outgoing := [];
    }

    method Recv(length: nat) returns (chunk: Bytes)
      modifies this`incoming
      ensures |chunk| <= length && old(incoming) == chunk + incoming
    {
      var count: nat :| count <= length && count <= |incoming|;
      chunk := incoming[..count];
      incoming := incoming[count..];
    }

    method Send(bytes: Bytes) returns (count: nat)
      modifies this`outgoing
      ensures count <= |bytes| && outgoing == old(outgoing) + bytes[..count]
    {
      count :| 0 <= count <= |bytes|;
      outgoing := outgoing + bytes[..count];
    }

    /** Reads exactly `length` bytes. `patience` bounds the calls that move nothing before the deadline. */
    method ReadExact(length: nat, patience: nat) returns (ok: bool, bytes: Bytes)
      modifies this`incoming
      ensures old(incoming) == bytes + incoming
      ensures ok <==> |bytes| == length
      ensures |bytes| <= length
    {
      bytes := [];
      var left := patience;
      while |bytes| < length
        invariant |bytes| <= length && old(incoming) == bytes + incoming
        decreases length - |bytes| + left
      {
        var gaveUp: bool := *;
        if gaveUp { return false, bytes; }      // stopped, past the deadline, closed or in error
        var chunk := Recv(length - |bytes|);
        bytes := bytes + chunk;
        if chunk == [] {
          if left == 0 { return false, bytes; }
          left := left - 1;
        }
      }
      ok := true;
    }

    /** Writes all of `bytes` or reports that it did not. A write that failed stopped short of the end. */
    method WriteExact(bytes: Bytes, patience: nat) returns (ok: bool, sent: nat)
      modifies this`outgoing
      ensures sent <= |bytes| && outgoing == old(outgoing) + bytes[..sent]
      ensures ok <==> sent == |bytes|
    {
      sent := 0;
      var left := patience;
      while sent < |bytes|
        invariant sent <= |bytes| && outgoing == old(outgoing) + bytes[..sent]
        decreases |bytes| - sent + left
      {
        var gaveUp: bool := *;
        if gaveUp { return false, sent; }
        var count := Send(bytes[sent..]);
        assert bytes[..sent] + bytes[sent..][..count] == bytes[..sent + count];
        sent := sent + count;
        if count == 0 {
          if left == 0 { return false, sent; }
          left := left - 1;
        }
      }
      ok := true;
    }

    /** Reads as many bytes as the prefix says, chunk by chunk. The buffer never grows past twice what came in
        and a chunk, nor past the frame. */
    method ReadFramePayload(claimed: nat, maximum: nat, patience: nat)
      returns (read: FrameRead, capacity: nat, served: nat)
      modifies this`incoming
      ensures read.Rejected? <==> claimed == 0 || claimed > maximum
      ensures read.Rejected? ==> incoming == old(incoming) && capacity == 0
      ensures read.Completed? ==>
                |read.payload| == claimed && old(incoming) == read.payload + incoming && read.rest == incoming
      ensures capacity <= claimed && capacity <= 2 * (served + READ_CHUNK)
      ensures read.Short? ==> served < claimed
      ensures served <= |old(incoming)| && incoming == old(incoming)[served..]
    {
      if claimed == 0 || claimed > maximum { return Rejected, 0, 0; }
      var payload: Bytes := [];
      capacity := 0;
      while |payload| < claimed
        invariant |payload| <= capacity <= claimed
        invariant capacity <= 2 * (|payload| + READ_CHUNK) && old(incoming) == payload + incoming
      {
        var want := if claimed - |payload| < READ_CHUNK then claimed - |payload| else READ_CHUNK;
        capacity := GrowFrameBuffer(capacity, |payload|, want, claimed);
        var ok, chunk := ReadExact(want, patience);
        payload := payload + chunk;
        if !ok { return Short, capacity, |payload|; }
      }
      read, served := Completed(payload, incoming), |payload|;
    }
  }

  /** The size of a buffer that can take one more chunk: twice what it was, up to the whole frame. */
  method GrowFrameBuffer(capacity: nat, filled: nat, want: nat, frame: nat) returns (grown: nat)
    requires filled <= capacity <= frame && filled + want <= frame && 0 < want <= READ_CHUNK
    requires capacity <= 2 * (filled + READ_CHUNK)
    ensures filled + want <= grown <= frame && grown <= 2 * (filled + READ_CHUNK)
  {
    var needed := filled + want;
    grown := capacity;
    if capacity < needed {
      var next := if capacity < needed / 2 then needed else capacity * 2;
      if next > frame { next := frame; }
      grown := if next < needed then needed else next;
    }
  }
}
