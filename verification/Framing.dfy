/**
  The framing of the TCP transport: a length, a magic number, the payload.  The layer keeps what
  it has received until whole frames can be read from it.
 */
module Framing {
  import opened Prelude
  import LE = LittleEndian

  const MAGIC: nat := 0x31305456
  const UINT32: nat := 0x1_0000_0000

  datatype Error = InvalidMagic | SliceOutOfRange

  /** One attempt to read a frame; `rest` is what stays in the buffer. */
  datatype Read = Short | Packet(data: bytes, rest: bytes) | Failed(error: Error, rest: bytes)

  /**
    The length is compared as a 64-bit number but the packet is allocated with a 32-bit sum, so a
    declared length within 8 of 2^32 wraps to a packet too small to hold its own header.
   */
  function TryRead(buffer: bytes): (r: Read)
    ensures r.Packet? ==> |r.rest| < |buffer|
    ensures r.Failed? ==> |r.rest| <= |buffer|
  {
    if |buffer| < 8 then Short
    else
      var length := LE.Get(buffer[..4]);
      if |buffer| < length + 8 then Short
      else
        var size := (length + 8) % UINT32;
        if size < 8 then Failed(SliceOutOfRange, buffer[size..])
        else if LE.Get(buffer[4..8]) != MAGIC then Failed(InvalidMagic, buffer[size..])
        else Packet(buffer[8..size], buffer[size..])
  }

  /** All the packets a buffer holds and the bytes left over. */
  function Drain(buffer: bytes): Result<(seq<bytes>, bytes), Error>
    decreases |buffer|
  {
    match TryRead(buffer)
    case Short => Ok(([], buffer))
    case Failed(e, _) => Err(e)
    case Packet(data, rest) =>
      var (more, left) :- Drain(rest);
      Ok(([data] + more, left))
  }

  function Frame(data: bytes): bytes {
    LE.Put(|data| % UINT32, 4) + LE.Put(MAGIC, 4) + data
  }

  function Prepend(packets: seq<bytes>, r: Result<(seq<bytes>, bytes), Error>): Result<(seq<bytes>, bytes), Error> {
    if r.Ok? then Ok((packets + r.value.0, r.value.1)) else r
  }

  lemma PrependOne(packets: seq<bytes>, packet: bytes, r: Result<(seq<bytes>, bytes), Error>)
    ensures Prepend([], r) == r
    ensures Prepend(packets + [packet], r) == Prepend(packets, Prepend([packet], r))
  {
    if r.Ok? {
      assert [] + r.value.0 == r.value.0;
      assert packets + [packet] + r.value.0 == packets + ([packet] + r.value.0);
    }
  }

  lemma PrependTwice(a: seq<bytes>, b: seq<bytes>, r: Result<(seq<bytes>, bytes), Error>)
    ensures Prepend(a + b, r) == Prepend(a, Prepend(b, r))
  {
    if r.Ok? {
      assert a + b + r.value.0 == a + (b + r.value.0);
    }
  }

  class TcpLayer {
    var rbuff: bytes

    constructor ()
      ensures rbuff == []
    {
      rbuff := [];
    }

    method TryReadPacket() returns (r: Read)
      modifies this
      ensures r == TryRead(old(rbuff))
      ensures rbuff == if r.Short? then old(rbuff) else r.rest
    {
      if |rbuff| < 8 {
        return Short;
      }
      var pktLen := LE.Get(rbuff[..4]);
      if |rbuff| < pktLen + 8 {
        return Short;
      }
      var size := (pktLen + 8) % UINT32;
      var pktData := rbuff[..size];
      rbuff := rbuff[size..];
      if |pktData| < 8 {
        return Failed(SliceOutOfRange, rbuff);
      }
      assert pktData[4..8] == old(rbuff)[4..8];
      if LE.Get(pktData[4..8]) != MAGIC {
        return Failed(InvalidMagic, rbuff);
      }
      return Packet(pktData[8..], rbuff);
    }

    method HandleIncomingData(data: bytes) returns (r: Result<seq<bytes>, Error>)
      modifies this
      ensures var drained := Drain(old(rbuff) + data);
        if drained.Ok? then r == Ok(drained.value.0) && rbuff == drained.value.1 else r == Err(drained.error)
    {
      rbuff := rbuff + data;
      ghost var all := rbuff;
      var packets: seq<bytes> := [];
      PrependOne([], [], Drain(all));
      while true
        invariant Drain(all) == Prepend(packets, Drain(rbuff))
        decreases |rbuff|
      {
        var read := TryReadPacket();
        match read
        case Short =>
          assert packets + [] == packets;
          return Ok(packets);
        case Failed(e, _) =>
          return Err(e);
        case Packet(packet, _) =>
          PrependOne(packets, packet, Drain(rbuff));
          packets := packets + [packet];
      }
    }

    method HandleOutgoingData(data: bytes) returns (r: bytes)
      ensures r == Frame(data)
    {
      var buff := LE.Put(|data| % UINT32, 4);
      buff := buff + LE.Put(MAGIC, 4);
      buff := buff + data;
      return buff;
    }
  }

  // ----- the bytes of a frame -----

  /** Four bytes of length, the lowest first and modulo 2^32; the letters VT01; the data. */
  lemma FrameIs(data: bytes)
    ensures |Frame(data)| == 8 + |data| && Frame(data)[8..] == data
    ensures Frame(data)[4..8] == [0x56, 0x54, 0x30, 0x31]
    ensures forall i :: 0 <= i < 4 ==> Frame(data)[i] == |data| % 0x1_0000_0000 / LE.Range(i) % 0x100
  {
    assert Frame(data)[4..8] == LE.Put(MAGIC, 4);
    forall i | 0 <= i < 4 ensures Frame(data)[i] == |data| % UINT32 / LE.Range(i) % 0x100 {
      LE.PutIs(|data| % UINT32, 4, i);
    }
    MagicIs();
  }

  lemma MagicIs()
    ensures LE.Put(MAGIC, 4) == [0x56, 0x54, 0x30, 0x31]
  {
    assert LE.Put(0x313054, 3) == [0x54] + LE.Put(0x3130, 2);
    assert LE.Put(0x3130, 2) == [0x30] + LE.Put(0x31, 1);
  }

  /** A whole frame with other letters fails. */
  lemma OtherMagicFails(buffer: bytes)
    requires |buffer| >= 8 && buffer[4..8] != [0x56, 0x54, 0x30, 0x31]
    requires LE.Get(buffer[..4]) + 8 <= |buffer| && LE.Get(buffer[..4]) + 8 < 0x1_0000_0000
    ensures TryRead(buffer) == Failed(InvalidMagic, buffer[LE.Get(buffer[..4]) + 8..])
  {
    MagicIs();
    LE.PutGet(buffer[4..8]);
  }

  // ----- chunking -----

  function Flatten(chunks: seq<bytes>): bytes {
    if chunks == [] then [] else chunks[0] + Flatten(chunks[1..])
  }

  /** What the layer returns over a sequence of calls, one per chunk. */
  function Feed(buffer: bytes, chunks: seq<bytes>): Result<(seq<bytes>, bytes), Error>
    decreases |chunks|
  {
    if chunks == [] then Ok(([], buffer))
    else
      var (packets, left) :- Drain(buffer + chunks[0]);
      var (more, left') :- Feed(left, chunks[1..]);
      Ok((packets + more, left'))
  }

  /** More bytes at the end change nothing about a frame that is already whole. */
  lemma TryReadStable(buffer: bytes, more: bytes)
    requires !TryRead(buffer).Short?
    ensures match TryRead(buffer)
      case Packet(data, rest) => TryRead(buffer + more) == Packet(data, rest + more)
      case Failed(e, rest) => TryRead(buffer + more) == Failed(e, rest + more)
  {
    var all := buffer + more;
    assert all[..4] == buffer[..4] && all[4..8] == buffer[4..8];
    var size := (LE.Get(buffer[..4]) + 8) % UINT32;
    assert size <= LE.Get(buffer[..4]) + 8 <= |buffer|;
    assert all[size..] == buffer[size..] + more;
    if size >= 8 {
      assert all[8..size] == buffer[8..size];
    }
  }

  lemma {:induction false} DrainLeavesShort(buffer: bytes)
    ensures Drain(buffer).Ok? ==> TryRead(Drain(buffer).value.1).Short?
    decreases |buffer|
  {
    if !TryRead(buffer).Packet? {
    } else {
      DrainLeavesShort(TryRead(buffer).rest);
    }
  }

  /** Draining in two steps gives the same packets, or the same first error, as draining at once. */
  lemma {:induction false} DrainSplit(buffer: bytes, more: bytes)
    ensures var drained := Drain(buffer);
      Drain(buffer + more) ==
      if drained.Ok? then Prepend(drained.value.0, Drain(drained.value.1 + more)) else drained
    decreases |buffer|
  {
    match TryRead(buffer)
    case Short => PrependOne([], [], Drain(buffer + more));
    case Failed(_, _) => TryReadStable(buffer, more);
    case Packet(data, rest) =>
      TryReadStable(buffer, more);
      DrainSplit(rest, more);
      if Drain(rest).Ok? {
        var (packets, left) := Drain(rest).value;
        PrependTwice([data], packets, Drain(left + more));
      }
  }

  /** However a stream is cut, feeding the pieces gives what draining the whole stream gives. */
  lemma {:induction false} ChunkingIndependence(buffer: bytes, chunks: seq<bytes>)
    requires TryRead(buffer).Short?
    ensures Feed(buffer, chunks) == Drain(buffer + Flatten(chunks))
    decreases |chunks|
  {
    if chunks == [] {
      assert buffer + [] == buffer;
    } else {
      var first := buffer + chunks[0];
      assert buffer + Flatten(chunks) == first + Flatten(chunks[1..]);
      DrainSplit(first, Flatten(chunks[1..]));
      if Drain(first).Ok? {
        DrainLeavesShort(first);
        ChunkingIndependence(Drain(first).value.1, chunks[1..]);
      }
    }
  }

  // ----- frames -----

  predicate Fits(data: bytes) {
    |data| < UINT32 - 8
  }

  function Stream(messages: seq<bytes>): bytes {
    if messages == [] then [] else Frame(messages[0]) + Stream(messages[1..])
  }

  lemma AfterHeader(data: bytes, more: bytes, n: nat)
    requires n <= |data|
    ensures var all := Frame(data) + more;
      |all| == 8 + |data| + |more| && all[8..n + 8] == data[..n] && all[n + 8..] == data[n..] + more
  {}

  lemma TryReadBy(buffer: bytes, length: nat)
    requires 8 <= length + 8 <= |buffer| && length < UINT32
    requires LE.Get(buffer[..4]) == length && LE.Get(buffer[4..8]) == MAGIC
    ensures TryRead(buffer) ==
      if length + 8 >= UINT32 then Failed(SliceOutOfRange, buffer[length + 8 - UINT32..])
      else Packet(buffer[8..length + 8], buffer[length + 8..])
  {
    assert (length + 8) % UINT32 == if length + 8 >= UINT32 then length + 8 - UINT32 else length + 8;
  }

  lemma TryReadFrame(data: bytes, more: bytes)
    ensures var length := |data| % UINT32;
      TryRead(Frame(data) + more) ==
        if length + 8 >= UINT32 then Failed(SliceOutOfRange, (Frame(data) + more)[length + 8 - UINT32..])
        else Packet(data[..length], data[length..] + more)
  {
    var all, length := Frame(data) + more, |data| % UINT32;
    FrameHeader(data, more);
    assert length + 8 <= |all|;
    TryReadBy(all, length);
    AfterHeader(data, more, length);
  }

  lemma FrameHeader(data: bytes, more: bytes)
    ensures var all := Frame(data) + more;
      |all| == 8 + |data| + |more| && LE.Get(all[..4]) == |data| % UINT32 && LE.Get(all[4..8]) == MAGIC
  {
    var all, length := Frame(data) + more, |data| % UINT32;
    LE.Widths();
    LE.GetPut(length, 4);
    LE.GetPut(MAGIC, 4);
    assert all[..4] == LE.Put(length, 4) && all[4..8] == LE.Put(MAGIC, 4);
  }

  lemma TryReadFits(data: bytes, more: bytes)
    requires Fits(data)
    ensures TryRead(Frame(data) + more) == Packet(data, more)
  {
    var length := |data| % UINT32;
    assert length == |data|;
    TryReadFrame(data, more);
    assert data[..length] == data;
    assert data[length..] + more == more;
  }

  lemma DrainFrame(data: bytes, more: bytes)
    requires Fits(data)
    ensures Drain(Frame(data) + more) == Prepend([data], Drain(more))
  {
    var all := Frame(data) + more;
    assert TryRead(all) == Packet(data, more) by {
      TryReadFits(data, more);
    }
  }

  /** Frames are read back one by one, whatever follows them. */
  lemma {:induction false} DrainStream(messages: seq<bytes>, more: bytes)
    requires forall m :: m in messages ==> Fits(m)
    ensures Drain(Stream(messages) + more) == Prepend(messages, Drain(more))
    decreases |messages|
  {
    if messages == [] {
      assert Stream(messages) + more == more;
      PrependOne([], [], Drain(more));
    } else {
      var m, rest := messages[0], Stream(messages[1..]) + more;
      assert Stream(messages) + more == Frame(m) + rest;
      DrainFrame(m, rest);
      DrainStream(messages[1..], more);
      assert messages == [m] + messages[1..];
      PrependTwice([m], messages[1..], Drain(more));
    }
  }

  /**
    For every list of messages and every cut of their frames, with the beginning of a further frame
    at the end: the pieces yield exactly those messages in order, and the beginning stays buffered.
   */
  lemma ReassemblyIsExact(messages: seq<bytes>, partial: bytes, chunks: seq<bytes>)
    requires forall m :: m in messages ==> Fits(m)
    requires TryRead(partial).Short? && Flatten(chunks) == Stream(messages) + partial
    ensures Feed([], chunks) == Ok((messages, partial))
  {
    ChunkingIndependence([], chunks);
    assert [] + Flatten(chunks) == Flatten(chunks);
    DrainStream(messages, partial);
    assert messages + [] == messages;
  }

  /** A proper prefix of a frame is a partial frame. */
  lemma PrefixIsPartial(data: bytes, n: nat)
    requires Fits(data) && n < |Frame(data)|
    ensures TryRead(Frame(data)[..n]).Short?
  {
    LE.Widths();
    LE.GetPut(|data|, 4);
    if n >= 8 {
      assert Frame(data)[..n][..4] == LE.Put(|data|, 4);
    }
  }

  /** A message survives its own frame exactly when its length is below 2^32 - 8. */
  lemma FrameRoundTripIff(data: bytes)
    ensures Drain(Frame(data)) == Ok(([data], [])) <==> Fits(data)
  {
    assert Frame(data) + [] == Frame(data);
    if Fits(data) {
      DrainFrame(data, []);
      assert [data] + [] == [data];
    } else {
      TryReadFrame(data, []);
      if TryRead(Frame(data)).Packet? && Drain(Frame(data)).Ok? {
        assert |Drain(Frame(data)).value.0[0]| < |data|;
      }
    }
  }
}
