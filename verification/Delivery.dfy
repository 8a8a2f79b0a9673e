/**
  What an encrypted connection delivers: whatever payloads one side sends through its stack, and
  however the transport cuts the bytes, the other side's stack returns exactly those payloads.
 */
module Delivery {
  import opened Prelude
  import opened Layers
  import opened Channel
  import F = Framing
  import C = Crypto

  /** The stack of framing below encryption; `buffer` holds the bytes of an incomplete frame. */
  function Connection(env: Env, buffer: bytes, s: LayerState): Stack<LayerState> {
    MakeLayerStack([TcpLayer(buffer), CipherLayer(env, s)])
  }

  lemma ConnectionIsNested(env: Env, buffer: bytes, s: LayerState)
    ensures Connection(env, buffer, s) == Over(TcpLayer(buffer), Single(CipherLayer(env, s)))
  {
    var layers := [TcpLayer(buffer), CipherLayer(env, s)];
    assert layers[1..] == [CipherLayer(env, s)];
    assert MakeLayerStack(layers[1..]) == Single(layers[1]);
  }

  predicate Usable(s: LayerState) {
    s.Cipher? && s.phase.Encrypted? && s.encrypter.Some? && C.ValidKey(s.encrypter.value.key)
  }

  /** A payload whose encryption fits one frame. */
  predicate Carried(p: bytes) {
    32 + |p| < F.UINT32 - 8
  }

  /** The n-th call encrypts with the n-th draw of random bytes. */
  function EncryptAll(env: Env, e: Encrypter, drawn: nat, payloads: seq<bytes>): (packets: seq<bytes>)
    ensures |packets| == |payloads|
    decreases |payloads|
  {
    if payloads == [] then []
    else
      var c := Encrypt(env, e, drawn, payloads[0]);
      [if c.Ok? then c.value else []] + EncryptAll(env, e, drawn + 1, payloads[1..])
  }

  /** The payloads are the decryptions of the packets. */
  ghost predicate Decrypts(env: Env, e: Encrypter, packets: seq<bytes>, payloads: seq<bytes>) {
    |packets| == |payloads| && forall i :: 0 <= i < |packets| ==> Decrypt(env, e, packets[i]) == Ok(payloads[i])
  }

  lemma EncryptOne(env: Env, e: Encrypter, drawn: nat, p: bytes)
    requires Lawful(env) && C.ValidKey(e.key)
    ensures Encrypt(env, e, drawn, p).Ok?
    ensures Decrypt(env, e, Encrypt(env, e, drawn, p).value) == Ok(p)
    ensures |p| < |Encrypt(env, e, drawn, p).value| <= |p| + 32
  {
    match e
    case Symmetric(key) =>
      var iv := env.random(drawn, 16);
      C.AESRoundTrip(env.primitives, key, p, iv);
      C.IVRoundTrip(env.primitives, key, p, iv);
    case SymmetricHMAC(key, secret) =>
      var prefix := env.random(drawn, 3);
      C.HMACRoundTrip(env.primitives, key, secret, p, prefix);
      C.IVRoundTrip(env.primitives, key, p, C.HmacIV(env.primitives, p, secret, prefix));
  }

  lemma {:induction false} EncryptAllBack(env: Env, e: Encrypter, drawn: nat, payloads: seq<bytes>)
    requires Lawful(env) && C.ValidKey(e.key)
    ensures Decrypts(env, e, EncryptAll(env, e, drawn, payloads), payloads)
    ensures forall i :: 0 <= i < |payloads| ==>
      |payloads[i]| < |EncryptAll(env, e, drawn, payloads)[i]| <= |payloads[i]| + 32
    decreases |payloads|
  {
    if payloads == [] {
    } else {
      EncryptOne(env, e, drawn, payloads[0]);
      EncryptAllBack(env, e, drawn + 1, payloads[1..]);
      var c, rest := Encrypt(env, e, drawn, payloads[0]).value, EncryptAll(env, e, drawn + 1, payloads[1..]);
      assert EncryptAll(env, e, drawn, payloads) == [c] + rest;
    }
  }

  lemma EncryptAllFits(env: Env, e: Encrypter, drawn: nat, payloads: seq<bytes>)
    requires Lawful(env) && C.ValidKey(e.key) && forall p :: p in payloads ==> Carried(p)
    ensures forall c :: c in EncryptAll(env, e, drawn, payloads) ==> F.Fits(c)
  {
    var packets := EncryptAll(env, e, drawn, payloads);
    EncryptAllBack(env, e, drawn, payloads);
    forall i | 0 <= i < |packets| ensures F.Fits(packets[i]) {
      assert payloads[i] in payloads && Carried(payloads[i]);
    }
  }

  // ----- receiving -----

  /** The events returned over a sequence of reads from the transport. */
  function FeedStack(st: Stack<LayerState>, chunks: seq<bytes>): Out<Stack<LayerState>>
    decreases |chunks|
  {
    if chunks == [] then Ok((st, []))
    else
      var (st1, out) :- StackIn(st, [Event(Incoming, DataReceived(chunks[0]))]);
      Then(out, FeedStack(st1, chunks[1..]))
  }

  lemma ReceivedFirst(packets: seq<bytes>)
    requires packets != []
    ensures Received(packets)[0] == Event(Incoming, DataReceived(packets[0]))
    ensures Received(packets)[1..] == Received(packets[1..])
    ensures Received(packets) == [Event(Incoming, DataReceived(packets[0]))] + Received(packets[1..])
  {}

  lemma ReceivedConcat(a: seq<bytes>, b: seq<bytes>)
    ensures Received(a + b) == Received(a) + Received(b)
  {}

  lemma DecryptsCut(env: Env, e: Encrypter, a: seq<bytes>, b: seq<bytes>, payloads: seq<bytes>)
    requires Decrypts(env, e, a + b, payloads)
    ensures Decrypts(env, e, a, payloads[..|a|]) && Decrypts(env, e, b, payloads[|a|..])
  {}

  lemma {:induction false} DecryptPackets(env: Env, s: LayerState, packets: seq<bytes>, payloads: seq<bytes>)
    requires Usable(s) && Decrypts(env, s.encrypter.value, packets, payloads)
    ensures Process(CipherIncoming(env), Incoming, s, Received(packets)) == Ok((s, Received(payloads)))
    decreases |packets|
  {
    if packets != [] {
      ReceivedFirst(packets);
      ReceivedFirst(payloads);
      assert CipherIncoming(env)(s, DataReceived(packets[0])) == Ok((s, [Event(Incoming, DataReceived(payloads[0]))]));
      DecryptPackets(env, s, packets[1..], payloads[1..]);
    } else {
      assert Received(packets) == [] && Received(payloads) == [];
    }
  }

  /** One read: the frames it completes come out decrypted. */
  lemma ReceiveChunk(env: Env, buffer: bytes, s: LayerState, chunk: bytes, payloads: seq<bytes>)
    requires Usable(s) && F.Drain(buffer + chunk).Ok?
    requires Decrypts(env, s.encrypter.value, F.Drain(buffer + chunk).value.0, payloads)
    ensures StackIn(Connection(env, buffer, s), [Event(Incoming, DataReceived(chunk))]) ==
            Ok((Connection(env, F.Drain(buffer + chunk).value.1, s), Received(payloads)))
  {
    var (packets, left) := F.Drain(buffer + chunk).value;
    var event := Event(Incoming, DataReceived(chunk));
    ConnectionIsNested(env, buffer, s);
    ConnectionIsNested(env, left, s);
    OnlyOfAll([event], Incoming);
    ProcessOne(TcpIncoming, Incoming, Tcp(buffer), DataReceived(chunk));
    DecryptPackets(env, s, packets, payloads);
    NothingToDo(TcpOutgoing, Outgoing, Tcp(left), Received(payloads));
    assert [] + Received(payloads) == Received(payloads);
  }

  lemma FeedStackStep(st: Stack<LayerState>, chunks: seq<bytes>, st1: Stack<LayerState>, out: seq<Event>)
    requires chunks != [] && StackIn(st, [Event(Incoming, DataReceived(chunks[0]))]) == Ok((st1, out))
    ensures FeedStack(st, chunks) == Then(out, FeedStack(st1, chunks[1..]))
  {}

  lemma {:induction false} ReceiveChunks(env: Env, buffer: bytes, s: LayerState, chunks: seq<bytes>,
                                         payloads: seq<bytes>)
    requires Usable(s) && F.Feed(buffer, chunks).Ok?
    requires Decrypts(env, s.encrypter.value, F.Feed(buffer, chunks).value.0, payloads)
    ensures FeedStack(Connection(env, buffer, s), chunks) ==
            Ok((Connection(env, F.Feed(buffer, chunks).value.1, s), Received(payloads)))
    decreases |chunks|
  {
    if chunks == [] {
      assert Received(payloads) == [];
    } else {
      var (packets, left) := F.Drain(buffer + chunks[0]).value;
      var (more, _) := F.Feed(left, chunks[1..]).value;
      var first, others := payloads[..|packets|], payloads[|packets|..];
      DecryptsCut(env, s.encrypter.value, packets, more, payloads);
      ReceiveChunk(env, buffer, s, chunks[0], first);
      ReceiveChunks(env, left, s, chunks[1..], others);
      FeedStackStep(Connection(env, buffer, s), chunks, Connection(env, left, s), Received(first));
      ReceivedConcat(first, others);
      assert payloads == first + others;
    }
  }

  // ----- sending -----

  function Sends(payloads: seq<bytes>): seq<Event> {
    seq(|payloads|, i requires 0 <= i < |payloads| => Event(Outgoing, DataToSend(payloads[i])))
  }

  function Frames(packets: seq<bytes>): (frames: seq<bytes>)
    ensures |frames| == |packets| && forall i :: 0 <= i < |frames| ==> frames[i] == F.Frame(packets[i])
  {
    if packets == [] then [] else [F.Frame(packets[0])] + Frames(packets[1..])
  }

  lemma SendsFirst(payloads: seq<bytes>)
    requires payloads != []
    ensures Sends(payloads)[0] == Event(Outgoing, DataToSend(payloads[0]))
    ensures Sends(payloads)[1..] == Sends(payloads[1..])
    ensures Sends(payloads) == [Event(Outgoing, DataToSend(payloads[0]))] + Sends(payloads[1..])
  {}

  lemma SendOne(env: Env, s: LayerState, p: bytes)
    requires Lawful(env) && Usable(s)
    ensures CipherOutgoing(env)(s, DataToSend(p)) ==
            Ok((s.(drawn := s.drawn + 1),
                [Event(Outgoing, DataToSend(EncryptAll(env, s.encrypter.value, s.drawn, [p])[0]))]))
  {}

  lemma {:induction false} EncryptPayloads(env: Env, s: LayerState, payloads: seq<bytes>)
    requires Lawful(env) && Usable(s)
    ensures Process(CipherOutgoing(env), Outgoing, s, Sends(payloads)) ==
            Ok((s.(drawn := s.drawn + |payloads|), Sends(EncryptAll(env, s.encrypter.value, s.drawn, payloads))))
    decreases |payloads|
  {
    var packets := EncryptAll(env, s.encrypter.value, s.drawn, payloads);
    if payloads != [] {
      SendsFirst(payloads);
      SendsFirst(packets);
      SendOne(env, s, payloads[0]);
      EncryptPayloads(env, s.(drawn := s.drawn + 1), payloads[1..]);
    } else {
      assert Sends(payloads) == [] && Sends(packets) == [];
    }
  }

  lemma {:induction false} FramePackets(buffer: bytes, packets: seq<bytes>)
    ensures Process(TcpOutgoing, Outgoing, Tcp(buffer), Sends(packets)) == Ok((Tcp(buffer), Sends(Frames(packets))))
  {
    if packets == [] {
      assert Sends(packets) == [] && Sends(Frames(packets)) == [];
    } else {
      SendsFirst(packets);
      SendsFirst(Frames(packets));
      assert Frames(packets)[1..] == Frames(packets[1..]);
      FramePackets(buffer, packets[1..]);
    }
  }

  lemma {:induction false} FlattenFrames(packets: seq<bytes>)
    ensures F.Flatten(Frames(packets)) == F.Stream(packets)
  {
    if packets == [] {
    } else {
      FlattenFrames(packets[1..]);
      assert Frames(packets)[1..] == Frames(packets[1..]);
    }
  }

  lemma SendPayloads(env: Env, buffer: bytes, s: LayerState, payloads: seq<bytes>)
    requires Lawful(env) && Usable(s)
    ensures StackOut(Connection(env, buffer, s), Sends(payloads)) ==
            Ok((Connection(env, buffer, s.(drawn := s.drawn + |payloads|)),
                Sends(Frames(EncryptAll(env, s.encrypter.value, s.drawn, payloads)))))
  {
    var packets := EncryptAll(env, s.encrypter.value, s.drawn, payloads);
    var s1 := s.(drawn := s.drawn + |payloads|);
    ConnectionIsNested(env, buffer, s);
    ConnectionIsNested(env, buffer, s1);
    OnlyOfAll(Sends(payloads), Outgoing);
    EncryptPayloads(env, s, payloads);
    FramePackets(buffer, packets);
    NothingComesIn(Single(CipherLayer(env, s1)), Sends(Frames(packets)));
    assert [] + Sends(Frames(packets)) == Sends(Frames(packets));
  }

  // ----- both ends -----

  /**
    Two ends with the same key.  The sender's stack turns the payloads into one frame each; however
    those frames' bytes are cut into reads, with nothing lost or reordered, the receiver's stack
    returns exactly the payloads in order, and is left as it was.
   */
  lemma PayloadsAreDelivered(env: Env, sent: bytes, sender: LayerState, receiver: LayerState,
                             payloads: seq<bytes>, pieces: seq<bytes>)
    requires Lawful(env) && Usable(sender) && Usable(receiver) && sender.encrypter == receiver.encrypter
    requires forall p :: p in payloads ==> Carried(p)
    requires var frames := Frames(EncryptAll(env, sender.encrypter.value, sender.drawn, payloads));
      F.Flatten(pieces) == F.Flatten(frames)
    ensures var frames := Frames(EncryptAll(env, sender.encrypter.value, sender.drawn, payloads));
      StackOut(Connection(env, sent, sender), Sends(payloads)) ==
      Ok((Connection(env, sent, sender.(drawn := sender.drawn + |payloads|)), Sends(frames)))
    ensures FeedStack(Connection(env, [], receiver), pieces) == Ok((Connection(env, [], receiver), Received(payloads)))
  {
    var packets := EncryptAll(env, sender.encrypter.value, sender.drawn, payloads);
    SendPayloads(env, sent, sender, payloads);
    EncryptAllBack(env, sender.encrypter.value, sender.drawn, payloads);
    EncryptAllFits(env, sender.encrypter.value, sender.drawn, payloads);
    FlattenFrames(packets);
    assert F.Stream(packets) + [] == F.Stream(packets);
    F.ReassemblyIsExact(packets, [], pieces);
    ReceiveChunks(env, [], receiver, pieces, payloads);
  }
}
