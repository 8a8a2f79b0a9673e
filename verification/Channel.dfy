/**
  The two lowest layers of a TCP connection, framing and channel encryption, as layers of a stack;
  and what a whole connection delivers through them.
 */
module Channel {
  import opened Prelude
  import opened Layers
  import F = Framing
  import C = Crypto

  datatype Encrypter = Symmetric(key: bytes) | SymmetricHMAC(key: bytes, secret: bytes)

  datatype Phase = Disconnected | Challenged | Encrypted

  /** The packets that matter before the channel is encrypted. */
  datatype CmPacket =
    | EncryptRequest(version: nat, universe: nat, challenge: bytes)
    | EncryptResult(ok: bool)
    | OtherPacket

  /**
    What the layer calls: the primitives, the packet parser, the RSA answer to a challenge, and the
    random source, whose n-th draw of a given length is `random(n, length)`.
   */
  datatype Env = Env(
    primitives: C.Primitives,
    universe: nat,
    parse: bytes -> Option<CmPacket>,
    answer: bytes -> Option<bytes>,
    random: (nat, nat) -> bytes)

  ghost predicate Lawful(env: Env) {
    C.Lawful(env.primitives) && forall n, length :: |env.random(n, length)| == length
  }

  datatype LayerState =
    | Tcp(buffer: bytes)
    | Cipher(phase: Phase, encrypter: Option<Encrypter>, drawn: nat)

  const PANIC := Error("encrypted", 0)
  const REJECTED := Error("encrypted", 1)

  // ----- the framing layer -----

  function Received(packets: seq<bytes>): seq<Event> {
    seq(|packets|, i requires 0 <= i < |packets| => Event(Incoming, DataReceived(packets[i])))
  }

  function TcpIncoming(s: LayerState, p: Payload): Out<LayerState> {
    if s.Tcp? && p.DataReceived? then
      match F.Drain(s.buffer + p.data)
      case Ok((packets, left)) => Ok((Tcp(left), Received(packets)))
      case Err(e) => Err(Error("tcp", if e.InvalidMagic? then 1 else 0))
    else Ok((s, [Event(Incoming, p)]))
  }

  function TcpOutgoing(s: LayerState, p: Payload): Out<LayerState> {
    if p.DataToSend? then Ok((s, [Event(Outgoing, DataToSend(F.Frame(p.data)))]))
    else Ok((s, [Event(Outgoing, p)]))
  }

  function TcpLayer(buffer: bytes): Layer<LayerState> {
    Layer(Tcp(buffer), TcpIncoming, TcpOutgoing)
  }

  // ----- the encryption layer -----

  function Encrypt(env: Env, e: Encrypter, drawn: nat, data: bytes): Result<bytes, C.Error> {
    match e
    case Symmetric(key) => C.AESEncrypt(env.primitives, key, data, env.random(drawn, 16))
    case SymmetricHMAC(key, secret) => C.AESEncryptWithHMAC(env.primitives, key, secret, data, env.random(drawn, 3))
  }

  function Decrypt(env: Env, e: Encrypter, data: bytes): Result<bytes, C.Error> {
    match e
    case Symmetric(key) => C.AESDecrypt(env.primitives, key, data)
    case SymmetricHMAC(key, secret) => C.AESDecryptWithHMAC(env.primitives, key, secret, data)
  }

  /** The encrypter of a new key: with an HMAC secret if there was a challenge. */
  function NewEncrypter(key: bytes, challenge: bytes): Encrypter {
    if challenge != [] then SymmetricHMAC(key, if |key| < 16 then key else key[..16]) else Symmetric(key)
  }

  /** How the layer fails when the cipher does: an error is returned, a panic is not caught. */
  function Failure(e: C.Error): Error {
    if e.Panic? then PANIC else REJECTED
  }

  function HandleData(env: Env, s: LayerState, data: bytes): Out<LayerState>
    requires s.Cipher?
  {
    if s.phase.Encrypted? then
      if s.encrypter.None? then Err(PANIC)
      else
        match Decrypt(env, s.encrypter.value, data)
        case Ok(plain) => Ok((s, [Event(Incoming, DataReceived(plain))]))
        case Err(e) => Err(Failure(e))
    else
      match env.parse(data)
      case None => Err(REJECTED)
      case Some(OtherPacket) => Ok((s, []))
      case Some(EncryptResult(ok)) =>
        if ok then Ok((s.(phase := Encrypted), [Event(State, ChannelEncrypted)])) else Ok((s, []))
      case Some(EncryptRequest(version, universe, challenge)) =>
        if version != 1 || universe != env.universe then Err(REJECTED)
        else
          var key := env.random(s.drawn, 32);
          match env.answer(key + challenge)
          case None => Err(REJECTED)
          case Some(response) =>
            Ok((Cipher(Challenged, Some(NewEncrypter(key, challenge)), s.drawn + 1),
                [Event(Outgoing, DataToSend(response))]))
  }

  function CipherIncoming(env: Env): Handler<LayerState> {
    (s: LayerState, p: Payload) =>
      if s.Cipher? && p.DataReceived? then HandleData(env, s, p.data) else Ok((s, [Event(Incoming, p)]))
  }

  function SendData(env: Env, s: LayerState, data: bytes): Out<LayerState>
    requires s.Cipher?
  {
    if !s.phase.Encrypted? then Ok((s, [Event(Outgoing, DataToSend(data))]))
    else if s.encrypter.None? then Err(PANIC)
    else
      match Encrypt(env, s.encrypter.value, s.drawn, data)
      case Ok(c) => Ok((s.(drawn := s.drawn + 1), [Event(Outgoing, DataToSend(c))]))
      case Err(e) => Err(Failure(e))
  }

  function CipherOutgoing(env: Env): Handler<LayerState> {
    (s: LayerState, p: Payload) =>
      if s.Cipher? && p.DataToSend? then SendData(env, s, p.data) else Ok((s, [Event(Outgoing, p)]))
  }

  function CipherLayer(env: Env, s: LayerState): Layer<LayerState> {
    Layer(s, CipherIncoming(env), CipherOutgoing(env))
  }

  // ----- sending straight down -----

  /** Neither layer answers what is sent with an incoming event. */
  lemma ConnectionDescends(env: Env, buffer: bytes, s: LayerState, above: seq<Layer<LayerState>>)
    requires Descends(above)
    ensures Descends([TcpLayer(buffer), CipherLayer(env, s)] + above)
  {
    var layers := [TcpLayer(buffer), CipherLayer(env, s)] + above;
    forall i | 0 <= i < |layers| ensures Never(layers[i].outgoing, Incoming) {
      assert i >= 2 ==> layers[i] == above[i - 2];
    }
  }

  /** So over descending layers above, they send straight down, and no reply comes back to miss one of them. */
  lemma ConnectionSendsStraightDown(env: Env, buffer: bytes, s: LayerState, above: seq<Layer<LayerState>>,
                                    events: seq<Event>)
    requires Descends(above) && All(events, Outgoing)
    ensures var layers := [TcpLayer(buffer), CipherLayer(env, s)] + above;
      StackOut(MakeLayerStack(layers), events) == Nest(SendFrom(layers, |layers|, events))
  {
    ConnectionDescends(env, buffer, s, above);
    OutgoingGoesStraightDown([TcpLayer(buffer), CipherLayer(env, s)] + above, events);
  }

  // ----- panics -----

  /**
    Once encrypted, received data panics exactly if there is no encrypter, or the data is shorter than
    a block, or, the key being valid, it is shorter than two blocks, or not in whole blocks, or its
    last decrypted byte exceeds its decrypted length.
   */
  lemma ReceivePanicsIff(env: Env, s: LayerState, data: bytes)
    requires C.Sized(env.primitives) && s.Cipher? && s.phase.Encrypted?
    ensures HandleData(env, s, data) == Err(PANIC) <==>
            s.encrypter.None? || C.Panics(env.primitives, s.encrypter.value.key, data)
  {
    if s.encrypter.Some? {
      var e := s.encrypter.value;
      C.DecryptPanicsIff(env.primitives, e.key, if e.Symmetric? then [] else e.secret, data);
    }
  }

  /** Data sent panics exactly if there is no encrypter. */
  lemma SendPanicsIff(env: Env, s: LayerState, data: bytes)
    requires s.Cipher? && s.phase.Encrypted?
    ensures SendData(env, s, data) == Err(PANIC) <==> s.encrypter.None?
  {}

  /** The encryption layer as the object the program updates. */
  class EncryptedLayer {
    const env: Env
    var phase: Phase
    var encrypter: Option<Encrypter>
    var drawn: nat

    constructor (env: Env)
      ensures this.env == env && View() == Cipher(Disconnected, None, 0)
    {
      this.env := env;
      phase, encrypter, drawn := Disconnected, None, 0;
    }

    ghost function View(): LayerState
      reads this
    {
      Cipher(phase, encrypter, drawn)
    }

    /** The layer and its result are what `spec` says; after an error the layer is given up. */
    ghost predicate Gives(spec: Out<LayerState>, r: Result<seq<Event>, Error>)
      reads this
    {
      if r.Ok? then spec == Ok((View(), r.value)) else spec == Err(r.error)
    }

    method HandleIncomingData(data: bytes) returns (r: Result<seq<Event>, Error>)
      modifies this
      ensures Gives(HandleData(env, old(View()), data), r)
    {
      if phase.Encrypted? {
        if encrypter.None? {
          return Err(PANIC);
        }
        var decrypted := Decrypt(env, encrypter.value, data);
        if decrypted.Err? {
          return Err(Failure(decrypted.error));
        }
        return Ok([Event(Incoming, DataReceived(decrypted.value))]);
      }
      match env.parse(data)
      case None => return Err(REJECTED);
      case Some(OtherPacket) => return Ok([]);
      case Some(EncryptResult(ok)) =>
        if ok {
          phase := Encrypted;
          return Ok([Event(State, ChannelEncrypted)]);
        }
        return Ok([]);
      case Some(EncryptRequest(version, universe, challenge)) =>
        if version != 1 || universe != env.universe {
          return Err(REJECTED);
        }
        var key := env.random(drawn, 32);
        drawn := drawn + 1;
        if challenge != [] {
          encrypter := Some(SymmetricHMAC(key, if |key| < 16 then key else key[..16]));
        } else {
          encrypter := Some(Symmetric(key));
        }
        var response := env.answer(key + challenge);
        if response.None? {
          return Err(REJECTED);
        }
        phase := Challenged;
        return Ok([Event(Outgoing, DataToSend(response.value))]);
    }

    method EncryptData(data: bytes) returns (r: Result<seq<Event>, Error>)
      modifies this
      ensures Gives(SendData(env, old(View()), data), r)
    {
      if !phase.Encrypted? {
        return Ok([Event(Outgoing, DataToSend(data))]);
      }
      if encrypter.None? {
        return Err(PANIC);
      }
      var encrypted := Encrypt(env, encrypter.value, drawn, data);
      drawn := drawn + 1;
      if encrypted.Err? {
        return Err(Failure(encrypted.error));
      }
      return Ok([Event(Outgoing, DataToSend(encrypted.value))]);
    }

    method ProcessIncoming(events: seq<Event>) returns (r: Result<seq<Event>, Error>)
      modifies this
      ensures Gives(Process(CipherIncoming(env), Incoming, old(View()), events), r)
    {
      var processed: seq<Event> := [];
      var i := 0;
      ghost var spec := Process(CipherIncoming(env), Incoming, View(), events);
      assert events[0..] == events;
      ThenTwice([], [], spec);
      while i < |events|
        invariant 0 <= i <= |events|
        invariant spec == Then(processed, Process(CipherIncoming(env), Incoming, View(), events[i..]))
      {
        var event := events[i];
        var out := [event];
        if event.direction.Incoming? && event.payload.DataReceived? {
          var handled := HandleIncomingData(event.payload.data);
          if handled.Err? {
            return handled;
          }
          out := handled.value;
        }
        assert events[i..][1..] == events[i + 1..];
        ThenTwice(processed, out, Process(CipherIncoming(env), Incoming, View(), events[i + 1..]));
        processed := processed + out;
        i := i + 1;
      }
      assert processed + [] == processed;
      return Ok(processed);
    }

    method ProcessOutgoing(events: seq<Event>) returns (r: Result<seq<Event>, Error>)
      modifies this
      ensures Gives(Process(CipherOutgoing(env), Outgoing, old(View()), events), r)
    {
      var processed: seq<Event> := [];
      var i := 0;
      ghost var spec := Process(CipherOutgoing(env), Outgoing, View(), events);
      assert events[0..] == events;
      ThenTwice([], [], spec);
      while i < |events|
        invariant 0 <= i <= |events|
        invariant spec == Then(processed, Process(CipherOutgoing(env), Outgoing, View(), events[i..]))
      {
        var event := events[i];
        var out := [event];
        if event.direction.Outgoing? && event.payload.DataToSend? {
          var sent := EncryptData(event.payload.data);
          if sent.Err? {
            return sent;
          }
          out := sent.value;
        }
        assert events[i..][1..] == events[i + 1..];
        ThenTwice(processed, out, Process(CipherOutgoing(env), Outgoing, View(), events[i + 1..]));
        processed := processed + out;
        i := i + 1;
      }
      assert processed + [] == processed;
      return Ok(processed);
    }
  }
}
