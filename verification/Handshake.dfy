/**
  The reads of a connection whose channel is not encrypted yet: which answers to requests to encrypt
  leave the stack as they were raised, and which leave it encrypted.
 */
module Handshake {
  import opened Prelude
  import opened Layers
  import opened Channel
  import opened Delivery
  import F = Framing
  import C = Crypto

  const OPENED := Event(State, ChannelEncrypted)

  function Read(chunk: bytes): seq<Event> {
    [Event(Incoming, DataReceived(chunk))]
  }

  /** The stack of framing and encryption below any other layers. */
  function Connected(env: Env, buffer: bytes, s: LayerState, above: seq<Layer<LayerState>>): Stack<LayerState> {
    MakeLayerStack([TcpLayer(buffer)] + ([CipherLayer(env, s)] + above))
  }

  predicate Opens(env: Env, packet: bytes) {
    env.parse(packet) == Some(EncryptResult(true))
  }

  /** The number of packets before the first positive result. */
  function BeforeOpening(env: Env, packets: seq<bytes>): (k: nat)
    ensures k <= |packets| && forall i :: 0 <= i < k ==> !Opens(env, packets[i])
    ensures k < |packets| ==> Opens(env, packets[k])
  {
    if packets == [] || Opens(env, packets[0]) then 0 else 1 + BeforeOpening(env, packets[1..])
  }

  /** The challenges of the requests to encrypt among the packets. */
  function Challenges(env: Env, packets: seq<bytes>): seq<bytes> {
    if packets == [] then []
    else
      var p := env.parse(packets[0]);
      (if p.Some? && p.value.EncryptRequest? then [p.value.challenge] else []) + Challenges(env, packets[1..])
  }

  /** The answers to them, from the n-th draw of random bytes on. */
  function Answers(env: Env, drawn: nat, challenges: seq<bytes>): (answers: seq<bytes>)
    ensures |answers| == |challenges|
    decreases |challenges|
  {
    if challenges == [] then []
    else
      var answer := env.answer(env.random(drawn, 32) + challenges[0]);
      [if answer.Some? then answer.value else []] + Answers(env, drawn + 1, challenges[1..])
  }

  /** The layer after answering: it keeps the key of the last answer. */
  function AfterAnswers(env: Env, s: LayerState, challenges: seq<bytes>): (t: LayerState)
    requires s.Cipher?
    ensures t.Cipher?
  {
    if challenges == [] then s
    else
      var last := |challenges| - 1;
      Cipher(Challenged, Some(NewEncrypter(env.random(s.drawn + last, 32), challenges[last])), s.drawn + last + 1)
  }

  // ----- what the encryption layer makes of a read -----

  lemma {:induction false} AnswerPackets(env: Env, s: LayerState, packets: seq<bytes>)
    requires s.Cipher? && !s.phase.Encrypted? && forall p <- packets :: !Opens(env, p)
    requires Process(CipherIncoming(env), Incoming, s, Received(packets)).Ok?
    ensures var challenges := Challenges(env, packets);
      Process(CipherIncoming(env), Incoming, s, Received(packets)) ==
      Ok((AfterAnswers(env, s, challenges), Sends(Answers(env, s.drawn, challenges))))
    decreases |packets|
  {
    if packets == [] {
      assert Received(packets) == [] && Sends([]) == [];
    } else {
      ReceivedFirst(packets);
      assert packets[0] in packets && forall p <- packets[1..] :: p in packets;
      var (t, out) := HandleData(env, s, packets[0]).value;
      AnswerPackets(env, t, packets[1..]);
      AnswerFirst(env, s, packets, t, out);
    }
  }

  /** Answering one challenge and then the others. */
  lemma AnswerOne(env: Env, s: LayerState, challenge: bytes, more: seq<bytes>)
    requires s.Cipher?
    ensures var challenges, t := [challenge] + more, AfterAnswers(env, s, [challenge]);
      && AfterAnswers(env, s, challenges) == AfterAnswers(env, t, more)
      && Sends(Answers(env, s.drawn, challenges)) ==
         Sends(Answers(env, s.drawn, [challenge])) + Sends(Answers(env, t.drawn, more))
  {
    var challenges := [challenge] + more;
    assert challenges[1..] == more;
    assert Answers(env, s.drawn, challenges) == Answers(env, s.drawn, [challenge]) + Answers(env, s.drawn + 1, more);
  }

  lemma HandleOne(env: Env, s: LayerState, packet: bytes)
    requires s.Cipher? && !s.phase.Encrypted? && !Opens(env, packet) && HandleData(env, s, packet).Ok?
    ensures var asked := env.parse(packet).value;
      HandleData(env, s, packet) ==
      if asked.EncryptRequest? then
        Ok((AfterAnswers(env, s, [asked.challenge]), Sends(Answers(env, s.drawn, [asked.challenge]))))
      else Ok((s, []))
  {
    var asked := env.parse(packet).value;
    if asked.EncryptRequest? {
      var answers := Answers(env, s.drawn, [asked.challenge]);
      assert Sends(answers) == [Event(Outgoing, DataToSend(answers[0]))];
    }
  }

  lemma AnswerFirst(env: Env, s: LayerState, packets: seq<bytes>, t: LayerState, out: seq<Event>)
    requires s.Cipher? && !s.phase.Encrypted? && packets != [] && !Opens(env, packets[0])
    requires HandleData(env, s, packets[0]) == Ok((t, out))
    ensures t.Cipher? && !t.phase.Encrypted?
    ensures var challenges, more := Challenges(env, packets), Challenges(env, packets[1..]);
      && AfterAnswers(env, s, challenges) == AfterAnswers(env, t, more)
      && Sends(Answers(env, s.drawn, challenges)) == out + Sends(Answers(env, t.drawn, more))
  {
    var asked, more := env.parse(packets[0]).value, Challenges(env, packets[1..]);
    HandleOne(env, s, packets[0]);
    if asked.EncryptRequest? {
      AnswerOne(env, s, asked.challenge, more);
    } else {
      assert [] + more == more;
      assert [] + Sends(Answers(env, t.drawn, more)) == Sends(Answers(env, t.drawn, more));
    }
  }

  /** The packets that do not fail the handshake: a request must have the version, the universe and an answer. */
  predicate Acceptable(env: Env, drawn: nat, packet: bytes) {
    match env.parse(packet)
    case None => false
    case Some(EncryptRequest(version, universe, challenge)) =>
      version == 1 && universe == env.universe && env.answer(env.random(drawn, 32) + challenge).Some?
    case Some(_) => true
  }

  lemma AcceptOne(env: Env, s: LayerState, packet: bytes)
    requires s.Cipher? && !s.phase.Encrypted? && !Opens(env, packet)
    ensures var r := HandleData(env, s, packet);
      if Acceptable(env, s.drawn, packet) then
        r.Ok? && r.value.0.Cipher? && !r.value.0.phase.Encrypted? &&
        r.value.0.drawn == s.drawn + |Challenges(env, [packet])|
      else r == Err(REJECTED)
  {
    var packets: seq<bytes> := [packet];
    assert packets[1..] == [];
  }

  /** The i-th packet is acceptable when its turn comes. */
  predicate AcceptableAt(env: Env, drawn: nat, packets: seq<bytes>, i: nat)
    requires i < |packets|
  {
    Acceptable(env, drawn + |Challenges(env, packets[..i])|, packets[i])
  }

  lemma AcceptableOver(env: Env, drawn: nat, packets: seq<bytes>, i: nat)
    requires i + 1 < |packets|
    ensures AcceptableAt(env, drawn, packets, i + 1) <==>
            AcceptableAt(env, drawn + |Challenges(env, [packets[0]])|, packets[1..], i)
  {
    var first: seq<bytes> := [packets[0]];
    assert packets[..i + 1][1..] == packets[1..][..i] && first[1..] == [];
  }

  /** A read without a positive result is taken exactly if all its packets are acceptable, each at its turn. */
  lemma {:induction false} ReadIsTakenIff(env: Env, s: LayerState, packets: seq<bytes>)
    requires s.Cipher? && !s.phase.Encrypted? && forall p <- packets :: !Opens(env, p)
    ensures var r := Process(CipherIncoming(env), Incoming, s, Received(packets));
      && (r.Ok? <==> forall i :: 0 <= i < |packets| ==> AcceptableAt(env, s.drawn, packets, i))
      && (r.Err? ==> r == Err(REJECTED))
    decreases |packets|
  {
    if packets == [] {
      assert Received(packets) == [];
    } else {
      ReceivedFirst(packets);
      assert packets[0] in packets && forall p <- packets[1..] :: p in packets;
      AcceptOne(env, s, packets[0]);
      AcceptableFirst(env, s.drawn, packets);
      if Acceptable(env, s.drawn, packets[0]) {
        ReadIsTakenIff(env, HandleData(env, s, packets[0]).value.0, packets[1..]);
      }
    }
  }

  lemma AcceptableFirst(env: Env, drawn: nat, packets: seq<bytes>)
    requires packets != []
    ensures var next := drawn + |Challenges(env, [packets[0]])|;
      (forall i :: 0 <= i < |packets| ==> AcceptableAt(env, drawn, packets, i)) <==>
      && Acceptable(env, drawn, packets[0])
      && forall i :: 0 <= i < |packets| - 1 ==> AcceptableAt(env, next, packets[1..], i)
  {
    var next := drawn + |Challenges(env, [packets[0]])|;
    assert packets[..0] == [];
    assert AcceptableAt(env, drawn, packets, 0) <==> Acceptable(env, drawn, packets[0]);
    forall i | 0 <= i < |packets| - 1
      ensures AcceptableAt(env, drawn, packets, i + 1) <==> AcceptableAt(env, next, packets[1..], i)
    {
      AcceptableOver(env, drawn, packets, i);
    }
    if forall i :: 0 <= i < |packets| - 1 ==> AcceptableAt(env, next, packets[1..], i) {
      forall i | 0 < i < |packets| ensures AcceptableAt(env, drawn, packets, i) {
        assert AcceptableAt(env, next, packets[1..], i - 1);
      }
    }
  }

  /** After the result, whatever else the read has is decrypted. */
  lemma {:induction false} DecryptRest(env: Env, s: LayerState, packets: seq<bytes>) returns (plain: seq<bytes>)
    requires s.Cipher? && s.phase.Encrypted?
    requires Process(CipherIncoming(env), Incoming, s, Received(packets)).Ok?
    ensures Process(CipherIncoming(env), Incoming, s, Received(packets)) == Ok((s, Received(plain)))
    ensures if packets == [] then plain == []
            else s.encrypter.Some? && Decrypts(env, s.encrypter.value, packets, plain)
    decreases |packets|
  {
    if packets == [] {
      plain := [];
      assert Received(packets) == [] && Received(plain) == [];
    } else {
      ReceivedFirst(packets);
      var more := DecryptRest(env, s, packets[1..]);
      plain := [Decrypt(env, s.encrypter.value, packets[0]).value] + more;
      ReceivedFirst(plain);
    }
  }

  /** The challenges that a read answers. */
  function Asked(env: Env, packets: seq<bytes>): seq<bytes> {
    Challenges(env, packets[..BeforeOpening(env, packets)])
  }

  function AnswersOf(env: Env, s: LayerState, packets: seq<bytes>): seq<bytes>
    requires s.Cipher?
  {
    Answers(env, s.drawn, Asked(env, packets))
  }

  /** The layer after the packets of a read. */
  function AfterRead(env: Env, s: LayerState, packets: seq<bytes>): (t: LayerState)
    requires s.Cipher?
    ensures t.Cipher?
  {
    var t := AfterAnswers(env, s, Asked(env, packets));
    if BeforeOpening(env, packets) < |packets| then t.(phase := Encrypted) else t
  }

  /** The plain text of the packets behind the first positive result. */
  ghost predicate PlainRest(env: Env, t: LayerState, packets: seq<bytes>, plain: seq<bytes>)
    requires t.Cipher?
  {
    var k := BeforeOpening(env, packets);
    if k + 1 >= |packets| then plain == []
    else t.encrypter.Some? && Decrypts(env, t.encrypter.value, packets[k + 1..], plain)
  }

  function Opening(env: Env, packets: seq<bytes>, plain: seq<bytes>): seq<Event> {
    if BeforeOpening(env, packets) < |packets| then [OPENED] + Received(plain) else []
  }

  lemma ReceivedCut(packets: seq<bytes>, k: nat)
    requires k < |packets|
    ensures Received(packets) == Received(packets[..k]) + ([Event(Incoming, DataReceived(packets[k]))] +
                                                           Received(packets[k + 1..]))
  {}

  /** The answers come first; then, if the channel opens, the news of it and the plain texts of the rest. */
  lemma CipherRead(env: Env, s: LayerState, packets: seq<bytes>) returns (plain: seq<bytes>)
    requires s.Cipher? && !s.phase.Encrypted?
    requires Process(CipherIncoming(env), Incoming, s, Received(packets)).Ok?
    ensures Process(CipherIncoming(env), Incoming, s, Received(packets)) ==
            Ok((AfterRead(env, s, packets), Sends(AnswersOf(env, s, packets)) + Opening(env, packets, plain)))
    ensures PlainRest(env, AfterRead(env, s, packets), packets, plain)
  {
    var h, k := CipherIncoming(env), BeforeOpening(env, packets);
    plain := [];
    if k == |packets| {
      assert packets[..k] == packets;
      AnswerPackets(env, s, packets);
      assert Sends(AnswersOf(env, s, packets)) + [] == Sends(AnswersOf(env, s, packets));
    } else {
      var first, result, rest := Received(packets[..k]), Event(Incoming, DataReceived(packets[k])), packets[k + 1..];
      ReceivedCut(packets, k);
      ProcessConcat(h, Incoming, s, first, [result] + Received(rest));
      AnswerPackets(env, s, packets[..k]);
      var t := AfterAnswers(env, s, Asked(env, packets));
      AnswersLeaveItOpen(env, s, Asked(env, packets));
      assert ([result] + Received(rest))[1..] == Received(rest);
      plain := DecryptRest(env, t.(phase := Encrypted), rest);
    }
  }

  lemma AnswersLeaveItOpen(env: Env, s: LayerState, challenges: seq<bytes>)
    requires s.Cipher? && !s.phase.Encrypted?
    ensures !AfterAnswers(env, s, challenges).phase.Encrypted?
  {}

  // ----- what the whole stack makes of a read -----

  /** Below a stack that has processed incoming events, what it returned goes through one more layer. */
  function Under<S>(l: Layer<S>, r: Out<Stack<S>>): Out<Stack<S>> {
    var (top, out) :- r;
    var (l', out') :- LayerOut(l, out);
    Ok((Over(l', top), out'))
  }

  lemma UnderThen<S>(l: Layer<S>, front: seq<Event>, r: Out<Stack<S>>)
    requires LayerOut(l, front).Ok?
    ensures var o := LayerOut(l, front).value; Under(l, Then(front, r)) == Then(o.1, Under(o.0, r))
  {
    if r.Ok? {
      LayerOutConcat(l, front, r.value.1);
    }
  }

  lemma IncomingOver<S>(l: Layer<S>, top: Stack<S>, events: seq<Event>)
    requires All(events, Incoming)
    ensures StackIn(Over(l, top), events) ==
            var r := LayerIn(l, events);
            if r.Err? then Err(r.error) else Under(r.value.0, StackIn(top, r.value.1))
  {
    OnlyOfAll(events, Incoming);
    var r := LayerIn(l, events);
    if r.Ok? {
      var u := Under(r.value.0, StackIn(top, r.value.1));
      assert u.Ok? ==> [] + u.value.1 == u.value.1;
    }
  }

  /** Events that do not come in, in front of those that do, stay in front. */
  lemma FrontPasses<S>(st: Stack<S>, front: seq<Event>, events: seq<Event>)
    requires Layers.None(front, Incoming) && All(events, Incoming)
    ensures StackIn(st, front + events) == Then(front, StackIn(st, events))
  {
    match st
    case Single(layer) =>
      ProcessConcat(layer.incoming, Incoming, layer.state, front, events);
      NothingToDo(layer.incoming, Incoming, layer.state, front);
    case Over(_, _) =>
      SplitConcat(front, events, Incoming);
      OnlyOfNone(front, Incoming);
      OnlyOfAll(events, Incoming);
      assert [] + events == events && front + [] == front;
      RaisedBelowComesFirst(st, front + events);
  }

  lemma ReadPackets(buffer: bytes, chunk: bytes, top: Stack<LayerState>)
    ensures StackIn(Over(TcpLayer(buffer), top), Read(chunk)) ==
            var r := F.Drain(buffer + chunk);
            if r.Ok? then Under(TcpLayer(r.value.1), StackIn(top, Received(r.value.0)))
            else Err(Error("tcp", if r.error.InvalidMagic? then 1 else 0))
  {
    IncomingOver(TcpLayer(buffer), top, Read(chunk));
    ProcessOne(TcpIncoming, Incoming, Tcp(buffer), DataReceived(chunk));
  }

  lemma FramedInFront(left: bytes, payloads: seq<bytes>, r: Out<Stack<LayerState>>)
    ensures Under(TcpLayer(left), Then(Sends(payloads), r)) == Then(Sends(Frames(payloads)), Under(TcpLayer(left), r))
  {
    FramePackets(left, payloads);
    UnderThen(TcpLayer(left), Sends(payloads), r);
  }

  lemma KeptInFront(l: Layer<LayerState>, events: seq<Event>, r: Out<Stack<LayerState>>)
    requires Layers.None(events, Outgoing)
    ensures Under(l, Then(events, r)) == Then(events, Under(l, r))
  {
    NothingToDo(l.outgoing, Outgoing, l.state, events);
    UnderThen(l, events, r);
  }

  lemma {:induction false} SentAsRaised(env: Env, t: LayerState, payloads: seq<bytes>)
    requires t.Cipher? && !t.phase.Encrypted?
    ensures Process(CipherOutgoing(env), Outgoing, t, Sends(payloads)) == Ok((t, Sends(payloads)))
  {
    if payloads == [] {
      assert Sends(payloads) == [];
    } else {
      SendsFirst(payloads);
      SentAsRaised(env, t, payloads[1..]);
    }
  }

  /** The answers as they are encrypted once the channel is open. */
  function Sealed(env: Env, t: LayerState, answers: seq<bytes>): (packets: seq<bytes>)
    requires t.Cipher?
  {
    if t.encrypter.None? then [] else EncryptAll(env, t.encrypter.value, t.drawn, answers)
  }

  lemma AnswersCanBeSealed(env: Env, s: LayerState, packets: seq<bytes>)
    requires Lawful(env) && s.Cipher? && !s.phase.Encrypted? && BeforeOpening(env, packets) < |packets|
    ensures AnswersOf(env, s, packets) == [] || Usable(AfterRead(env, s, packets))
  {}

  lemma SealedInFront(env: Env, t: LayerState, answers: seq<bytes>, r: Out<Stack<LayerState>>)
    requires Lawful(env) && t.Cipher? && (answers == [] || Usable(t))
    ensures Under(CipherLayer(env, t), Then(Sends(answers), r)) ==
            Then(Sends(Sealed(env, t, answers)),
                 Under(CipherLayer(env, t.(drawn := t.drawn + |answers|)), r))
  {
    if answers == [] {
      assert Sends(answers) == [] == Sends(Sealed(env, t, answers));
      NothingToDo(CipherOutgoing(env), Outgoing, t, []);
    } else {
      EncryptPayloads(env, t, answers);
    }
    UnderThen(CipherLayer(env, t), Sends(answers), r);
  }

  /** Through both layers: answers and the news of the opening, in front of what is returned from above. */
  lemma SealedBelow(env: Env, left: bytes, t: LayerState, answers: seq<bytes>, up: Out<Stack<LayerState>>)
    requires Lawful(env) && t.Cipher? && (answers == [] || Usable(t))
    ensures Under(TcpLayer(left), Under(CipherLayer(env, t), Then(Sends(answers) + [OPENED], up))) ==
            SealedUnder(env, left, t, answers, up)
  {
    var u := t.(drawn := t.drawn + |answers|);
    var below := Under(CipherLayer(env, u), up);
    ThenTwice(Sends(answers), [OPENED], up);
    SealedInFront(env, t, answers, Then([OPENED], up));
    KeptInFront(CipherLayer(env, u), [OPENED], up);
    FramedInFront(left, Sealed(env, t, answers), Then([OPENED], below));
    KeptInFront(TcpLayer(left), [OPENED], below);
  }

  /** What the stack returns for the packets of a read, with framing below. */
  function Given(env: Env, s: LayerState, left: bytes, packets: seq<bytes>, above: seq<Layer<LayerState>>)
    : Out<Stack<LayerState>>
  {
    Under(TcpLayer(left), StackIn(MakeLayerStack([CipherLayer(env, s)] + above), Received(packets)))
  }

  /**
    The answers encrypted, then the news of the opening, then what the layers above returned, as it
    comes down through the open channel.
   */
  function SealedUnder(env: Env, left: bytes, t: LayerState, answers: seq<bytes>, up: Out<Stack<LayerState>>)
    : Out<Stack<LayerState>>
    requires t.Cipher?
  {
    Then(Sends(Frames(Sealed(env, t, answers))),
         Then([OPENED], Under(TcpLayer(left), Under(CipherLayer(env, t.(drawn := t.drawn + |answers|)), up))))
  }

  /** The layers above are given the plain texts of the rest of the read. */
  function SealedAnswers(env: Env, left: bytes, t: LayerState, answers: seq<bytes>, above: seq<Layer<LayerState>>,
                         plain: seq<bytes>): Out<Stack<LayerState>>
    requires t.Cipher? && above != []
  {
    SealedUnder(env, left, t, answers, StackIn(MakeLayerStack(above), Received(plain)))
  }

  lemma AboveTheCipher(env: Env, s: LayerState, packets: seq<bytes>, t: LayerState, out: seq<Event>,
                       above: seq<Layer<LayerState>>)
    requires Process(CipherIncoming(env), Incoming, s, Received(packets)) == Ok((t, out)) && above != []
    ensures StackIn(MakeLayerStack([CipherLayer(env, s)] + above), Received(packets)) ==
            Under(CipherLayer(env, t), StackIn(MakeLayerStack(above), out))
  {
    NestOver(CipherLayer(env, s), above);
    IncomingOver(CipherLayer(env, s), MakeLayerStack(above), Received(packets));
  }

  /** If no positive result comes with them, or no layer is above, the answers are framed as they were raised. */
  lemma ReadAsRaised(env: Env, s: LayerState, left: bytes, packets: seq<bytes>, above: seq<Layer<LayerState>>)
    returns (plain: seq<bytes>)
    requires s.Cipher? && !s.phase.Encrypted? && (above == [] || BeforeOpening(env, packets) == |packets|)
    requires Process(CipherIncoming(env), Incoming, s, Received(packets)).Ok?
    ensures Given(env, s, left, packets, above) ==
            Ok((Connected(env, left, AfterRead(env, s, packets), above),
                Sends(Frames(AnswersOf(env, s, packets))) + Opening(env, packets, plain)))
    ensures PlainRest(env, AfterRead(env, s, packets), packets, plain)
  {
    plain := CipherRead(env, s, packets);
    AnswersLeaveItOpen(env, s, Asked(env, packets));
    var t, answers, opening := AfterRead(env, s, packets), AnswersOf(env, s, packets), Opening(env, packets, plain);
    var top := [CipherLayer(env, t)] + above;
    UpAsRaised(env, s, packets, above, t, answers, opening);
    NestOver(TcpLayer(left), top);
    FramedInFront(left, answers, Ok((MakeLayerStack(top), opening)));
    NothingToDo(TcpOutgoing, Outgoing, Tcp(left), opening);
  }

  lemma UpAsRaised(env: Env, s: LayerState, packets: seq<bytes>, above: seq<Layer<LayerState>>, t: LayerState,
                   answers: seq<bytes>, opening: seq<Event>)
    requires Process(CipherIncoming(env), Incoming, s, Received(packets)) == Ok((t, Sends(answers) + opening))
    requires above == [] || (opening == [] && t.Cipher? && !t.phase.Encrypted?)
    ensures StackIn(MakeLayerStack([CipherLayer(env, s)] + above), Received(packets)) ==
            Ok((MakeLayerStack([CipherLayer(env, t)] + above), Sends(answers) + opening))
  {
    if above == [] {
      assert [CipherLayer(env, s)] + above == [CipherLayer(env, s)];
      assert [CipherLayer(env, t)] + above == [CipherLayer(env, t)];
    } else {
      assert Sends(answers) + opening == Sends(answers);
      AboveTheCipher(env, s, packets, t, Sends(answers), above);
      NestOver(CipherLayer(env, t), above);
      NothingComesIn(MakeLayerStack(above), Sends(answers));
      SentAsRaised(env, t, answers);
    }
  }

  lemma OpeningPasses(top: Stack<LayerState>, answers: seq<bytes>, plain: seq<bytes>)
    ensures var front := Sends(answers) + [OPENED];
      StackIn(top, front + Received(plain)) == Then(front, StackIn(top, Received(plain)))
  {
    FrontPasses(top, Sends(answers) + [OPENED], Received(plain));
  }

  lemma ReturnedOnOpening(env: Env, s: LayerState, packets: seq<bytes>, above: seq<Layer<LayerState>>,
                          t: LayerState, answers: seq<bytes>, plain: seq<bytes>)
    requires above != []
    requires Process(CipherIncoming(env), Incoming, s, Received(packets)) ==
             Ok((t, Sends(answers) + ([OPENED] + Received(plain))))
    ensures StackIn(MakeLayerStack([CipherLayer(env, s)] + above), Received(packets)) ==
            Under(CipherLayer(env, t),
                  Then(Sends(answers) + [OPENED], StackIn(MakeLayerStack(above), Received(plain))))
  {
    Associate(Sends(answers), [OPENED], Received(plain));
    AboveTheCipher(env, s, packets, t, Sends(answers) + ([OPENED] + Received(plain)), above);
    OpeningPasses(MakeLayerStack(above), answers, plain);
  }

  lemma GivenSealed(env: Env, s: LayerState, left: bytes, packets: seq<bytes>, above: seq<Layer<LayerState>>,
                    t: LayerState, answers: seq<bytes>, up: Out<Stack<LayerState>>)
    requires Lawful(env) && t.Cipher? && (answers == [] || Usable(t))
    requires StackIn(MakeLayerStack([CipherLayer(env, s)] + above), Received(packets)) ==
             Under(CipherLayer(env, t), Then(Sends(answers) + [OPENED], up))
    ensures Given(env, s, left, packets, above) == SealedUnder(env, left, t, answers, up)
  {
    SealedBelow(env, left, t, answers, up);
  }

  lemma OpenedRead(env: Env, s: LayerState, left: bytes, packets: seq<bytes>, above: seq<Layer<LayerState>>,
                   t: LayerState, answers: seq<bytes>, plain: seq<bytes>)
    requires Lawful(env) && above != [] && t.Cipher? && (answers == [] || Usable(t))
    requires Process(CipherIncoming(env), Incoming, s, Received(packets)) ==
             Ok((t, Sends(answers) + ([OPENED] + Received(plain))))
    ensures Given(env, s, left, packets, above) == SealedAnswers(env, left, t, answers, above, plain)
  {
    ReturnedOnOpening(env, s, packets, above, t, answers, plain);
    GivenSealed(env, s, left, packets, above, t, answers, StackIn(MakeLayerStack(above), Received(plain)));
  }

  /** If a positive result comes with them and layers are above, they are encrypted first. */
  lemma ReadSealed(env: Env, s: LayerState, left: bytes, packets: seq<bytes>, above: seq<Layer<LayerState>>)
    returns (plain: seq<bytes>)
    requires Lawful(env) && s.Cipher? && !s.phase.Encrypted? && above != [] && BeforeOpening(env, packets) < |packets|
    requires Process(CipherIncoming(env), Incoming, s, Received(packets)).Ok?
    ensures Given(env, s, left, packets, above) ==
            SealedAnswers(env, left, AfterRead(env, s, packets), AnswersOf(env, s, packets), above, plain)
    ensures PlainRest(env, AfterRead(env, s, packets), packets, plain)
  {
    plain := CipherRead(env, s, packets);
    var t, answers := AfterRead(env, s, packets), AnswersOf(env, s, packets);
    AnswersCanBeSealed(env, s, packets);
    assert Opening(env, packets, plain) == [OPENED] + Received(plain);
    OpenedRead(env, s, left, packets, above, t, answers, plain);
  }

  lemma ReadIsGiven(env: Env, buffer: bytes, s: LayerState, chunk: bytes, above: seq<Layer<LayerState>>)
    requires StackIn(Connected(env, buffer, s, above), Read(chunk)).Ok?
    ensures F.Drain(buffer + chunk).Ok?
    ensures var read := F.Drain(buffer + chunk).value;
      var packets, left := read.0, read.1;
      && StackIn(Connected(env, buffer, s, above), Read(chunk)) == Given(env, s, left, packets, above)
      && Process(CipherIncoming(env), Incoming, s, Received(packets)).Ok?
  {
    var top := [CipherLayer(env, s)] + above;
    NestOver(TcpLayer(buffer), top);
    ReadPackets(buffer, chunk, MakeLayerStack(top));
    var packets := F.Drain(buffer + chunk).value.0;
    if above == [] {
      assert top == [CipherLayer(env, s)];
    } else {
      NestOver(CipherLayer(env, s), above);
      IncomingOver(CipherLayer(env, s), MakeLayerStack(above), Received(packets));
    }
  }

  /**
    Every read of a channel that is not encrypted yet, if it does not fail: the answers to all requests
    that come before a positive result, framed as they were raised if no positive result comes with
    them or no layer is above, and else encrypted with the key of the last answer; then the news of the
    result, and what becomes of the rest of the read.
   */
  lemma ReadBeforeOpening(env: Env, buffer: bytes, s: LayerState, chunk: bytes, above: seq<Layer<LayerState>>)
    returns (plain: seq<bytes>)
    requires Lawful(env) && s.Cipher? && !s.phase.Encrypted?
    requires StackIn(Connected(env, buffer, s, above), Read(chunk)).Ok?
    ensures F.Drain(buffer + chunk).Ok?
    ensures var read := F.Drain(buffer + chunk).value;
      var packets, left := read.0, read.1;
      var t, answers := AfterRead(env, s, packets), AnswersOf(env, s, packets);
      && PlainRest(env, t, packets, plain)
      && StackIn(Connected(env, buffer, s, above), Read(chunk)) ==
         if above == [] || BeforeOpening(env, packets) == |packets| then
           Ok((Connected(env, left, t, above), Sends(Frames(answers)) + Opening(env, packets, plain)))
         else SealedAnswers(env, left, t, answers, above, plain)
  {
    ReadIsGiven(env, buffer, s, chunk, above);
    var (packets, left) := F.Drain(buffer + chunk).value;
    if above == [] || BeforeOpening(env, packets) == |packets| {
      plain := ReadAsRaised(env, s, left, packets, above);
    } else {
      plain := ReadSealed(env, s, left, packets, above);
    }
  }

  lemma SealedDiffer(env: Env, t: LayerState, answers: seq<bytes>, out: seq<Event>)
    requires Lawful(env) && Usable(t) && answers != [] && Sends(Frames(Sealed(env, t, answers))) <= out
    ensures !(Sends(Frames(answers)) <= out)
    ensures Decrypts(env, t.encrypter.value, Sealed(env, t, answers), answers)
  {
    var packets := Sealed(env, t, answers);
    EncryptAllBack(env, t.encrypter.value, t.drawn, answers);
    F.FrameHeader(answers[0], []);
    F.FrameHeader(packets[0], []);
    assert out[0] == Sends(Frames(packets))[0] == Event(Outgoing, DataToSend(F.Frame(packets[0])));
    assert Sends(Frames(answers))[0] == Event(Outgoing, DataToSend(F.Frame(answers[0])));
  }

  /** What a read sends, or nothing if it fails. */
  function SentBy(env: Env, buffer: bytes, s: LayerState, chunk: bytes, above: seq<Layer<LayerState>>): seq<Event> {
    var r := StackIn(Connected(env, buffer, s, above), Read(chunk));
    if r.Ok? then r.value.1 else []
  }

  predicate OpenedBy(env: Env, packets: seq<bytes>) {
    exists p <- packets :: Opens(env, p)
  }

  lemma OpenedIff(env: Env, packets: seq<bytes>)
    ensures OpenedBy(env, packets) <==> BeforeOpening(env, packets) < |packets|
  {}

  /** The answers as they leave, framed. */
  function Leaving(env: Env, s: LayerState, packets: seq<bytes>, raised: bool): seq<Event>
    requires s.Cipher?
  {
    var answers := AnswersOf(env, s, packets);
    Sends(Frames(if raised then answers else Sealed(env, AfterRead(env, s, packets), answers)))
  }

  lemma SentAsRaisedIf(env: Env, buffer: bytes, s: LayerState, chunk: bytes, above: seq<Layer<LayerState>>)
    requires Lawful(env) && s.Cipher? && !s.phase.Encrypted?
    requires StackIn(Connected(env, buffer, s, above), Read(chunk)).Ok?
    ensures F.Drain(buffer + chunk).Ok?
    ensures var packets := F.Drain(buffer + chunk).value.0;
      Leaving(env, s, packets, above == [] || BeforeOpening(env, packets) == |packets|) <=
      SentBy(env, buffer, s, chunk, above)
  {
    var plain := ReadBeforeOpening(env, buffer, s, chunk, above);
  }

  lemma SealedLeaveIff(env: Env, s: LayerState, packets: seq<bytes>, out: seq<Event>)
    requires Lawful(env) && s.Cipher? && !s.phase.Encrypted? && OpenedBy(env, packets)
    requires Leaving(env, s, packets, false) <= out
    ensures var t, answers := AfterRead(env, s, packets), AnswersOf(env, s, packets);
      && (Leaving(env, s, packets, true) <= out <==> answers == [])
      && (answers != [] ==> Usable(t) && Decrypts(env, t.encrypter.value, Sealed(env, t, answers), answers))
  {
    var t, answers := AfterRead(env, s, packets), AnswersOf(env, s, packets);
    OpenedIff(env, packets);
    AnswersCanBeSealed(env, s, packets);
    if answers == [] {
      assert Sends(Frames(answers)) == [];
    } else {
      SealedDiffer(env, t, answers, out);
    }
  }

  /**
    The answers of a read leave as they were raised exactly if there is none, or no layer is above, or
    the read completes no positive result.  Otherwise each leaves encrypted, under the key that the
    other side is only about to learn from it.
   */
  lemma AnswersLeaveAsRaisedIff(env: Env, buffer: bytes, s: LayerState, chunk: bytes, above: seq<Layer<LayerState>>)
    requires Lawful(env) && s.Cipher? && !s.phase.Encrypted?
    requires StackIn(Connected(env, buffer, s, above), Read(chunk)).Ok?
    ensures F.Drain(buffer + chunk).Ok?
    ensures var packets, out := F.Drain(buffer + chunk).value.0, SentBy(env, buffer, s, chunk, above);
      var t, answers := AfterRead(env, s, packets), AnswersOf(env, s, packets);
      var raised := answers == [] || above == [] || !OpenedBy(env, packets);
      && (Leaving(env, s, packets, true) <= out <==> raised)
      && (!raised ==>
            && Leaving(env, s, packets, false) <= out && Usable(t)
            && Decrypts(env, t.encrypter.value, Sealed(env, t, answers), answers))
  {
    SentAsRaisedIf(env, buffer, s, chunk, above);
    var packets := F.Drain(buffer + chunk).value.0;
    OpenedIff(env, packets);
    if above != [] && OpenedBy(env, packets) {
      SealedLeaveIff(env, s, packets, SentBy(env, buffer, s, chunk, above));
    }
  }

  lemma OneRequest(env: Env, request: bytes, more: seq<bytes>, challenge: bytes)
    requires env.parse(request) == Some(EncryptRequest(1, env.universe, challenge))
    requires more == [] || Opens(env, more[0])
    ensures BeforeOpening(env, [request] + more) == 1 && Asked(env, [request] + more) == [challenge]
  {
    var packets := [request] + more;
    assert packets[1..] == more && packets[..1] == [request] && [request][1..] == [];
    assert Challenges(env, [request]) == [challenge] + Challenges(env, []);
  }

  /**
    A read that completes a request to encrypt and no more, whatever layers are above: the answer leaves
    framed and unencrypted, the layers above see nothing of it, and the channel then encrypts with the
    key that the answer carries, under an HMAC if there was a challenge, and under a random vector if not.
   */
  lemma HandshakeAnswerIsFramed(env: Env, buffer: bytes, s: LayerState, chunk: bytes, request: bytes, left: bytes,
                                challenge: bytes, response: bytes, above: seq<Layer<LayerState>>)
    returns (t: LayerState)
    requires Lawful(env) && s.Cipher? && !s.phase.Encrypted? && F.Drain(buffer + chunk) == Ok(([request], left))
    requires env.parse(request) == Some(EncryptRequest(1, env.universe, challenge))
    requires env.answer(env.random(s.drawn, 32) + challenge) == Some(response)
    ensures var k := env.random(s.drawn, 32);
      t == Cipher(Challenged, Some(if challenge == [] then Symmetric(k) else SymmetricHMAC(k, k[..16])), s.drawn + 1)
    ensures C.ValidKey(t.encrypter.value.key)
    ensures StackIn(Connected(env, buffer, s, above), Read(chunk)) ==
            Ok((Connected(env, left, t, above), [Event(Outgoing, DataToSend(F.Frame(response)))]))
  {
    t := AfterRead(env, s, [request]);
    var top := [CipherLayer(env, s)] + above;
    NestOver(TcpLayer(buffer), top);
    ReadPackets(buffer, chunk, MakeLayerStack(top));
    ProcessOne(CipherIncoming(env), Incoming, s, DataReceived(request));
    assert Received([request]) == [Event(Incoming, DataReceived(request))];
    assert [request] + [] == [request];
    OneRequest(env, request, [], challenge);
    var plain := ReadAsRaised(env, s, left, [request], above);
    assert Answers(env, s.drawn, [challenge]) == [response];
    var framed := [Event(Outgoing, DataToSend(F.Frame(response)))];
    assert Sends(Frames([response])) == framed == framed + [];
  }

  lemma RequestAndResult(env: Env, s: LayerState, request: bytes, result: bytes, challenge: bytes, response: bytes)
    requires s.Cipher? && !s.phase.Encrypted? && Opens(env, result)
    requires env.parse(request) == Some(EncryptRequest(1, env.universe, challenge))
    requires env.answer(env.random(s.drawn, 32) + challenge) == Some(response)
    ensures Process(CipherIncoming(env), Incoming, s, Received([request, result])).Ok?
  {
    var first, second := Event(Incoming, DataReceived(request)), Event(Incoming, DataReceived(result));
    var t := HandleData(env, s, request).value.0;
    assert Received([request, result]) == [first] + [second];
    ProcessConcat(CipherIncoming(env), Incoming, s, [first], [second]);
    ProcessOne(CipherIncoming(env), Incoming, s, first.payload);
    ProcessOne(CipherIncoming(env), Incoming, t, second.payload);
  }

  /**
    A read of a request and a positive result: whatever layers are above, if any, the answer leaves
    encrypted and the channel counts itself open.
   */
  lemma AnswerLeavesSealed(env: Env, s: LayerState, request: bytes, result: bytes, challenge: bytes, response: bytes,
                           above: seq<Layer<LayerState>>)
    returns (t: LayerState, sealed: bytes)
    requires Lawful(env) && s.Cipher? && !s.phase.Encrypted? && above != [] && F.Fits(request) && F.Fits(result)
    requires env.parse(request) == Some(EncryptRequest(1, env.universe, challenge)) && Opens(env, result)
    requires env.answer(env.random(s.drawn, 32) + challenge) == Some(response)
    ensures StackIn(Connected(env, [], s, above), Read(F.Frame(request) + F.Frame(result))) ==
            Ok((Connected(env, [], t, above), [Event(Outgoing, DataToSend(F.Frame(sealed))), OPENED]))
    ensures Usable(t) && sealed != response && Decrypt(env, t.encrypter.value, sealed) == Ok(response)
  {
    var packets, chunk := [request, result], F.Frame(request) + F.Frame(result);
    TwoFrames(request, result);
    var top := [CipherLayer(env, s)] + above;
    NestOver(TcpLayer([]), top);
    ReadPackets([], chunk, MakeLayerStack(top));
    assert [] + chunk == chunk;
    assert packets == [request] + [result];
    OneRequest(env, request, [result], challenge);
    RequestAndResult(env, s, request, result, challenge, response);
    var plain := ReadSealed(env, s, [], packets, above);
    assert Answers(env, s.drawn, [challenge]) == [response];
    t, sealed := NothingBehind(env, AfterRead(env, s, packets), response, above);
  }

  lemma TwoFrames(a: bytes, b: bytes)
    requires F.Fits(a) && F.Fits(b)
    ensures F.Drain(F.Frame(a) + F.Frame(b)) == Ok(([a, b], []))
  {
    F.DrainFrame(a, F.Frame(b));
    F.FrameRoundTripIff(b);
    assert [a] + [b] == [a, b];
  }

  lemma SealedOne(env: Env, t: LayerState, answer: bytes) returns (sealed: bytes)
    requires Lawful(env) && Usable(t)
    ensures Sends(Frames(Sealed(env, t, [answer]))) == [Event(Outgoing, DataToSend(F.Frame(sealed)))]
    ensures sealed != answer && Decrypt(env, t.encrypter.value, sealed) == Ok(answer)
  {
    sealed := Sealed(env, t, [answer])[0];
    EncryptAllBack(env, t.encrypter.value, t.drawn, [answer]);
    assert Sealed(env, t, [answer]) == [sealed];
  }

  lemma NothingBehind(env: Env, t: LayerState, answer: bytes, above: seq<Layer<LayerState>>)
    returns (u: LayerState, sealed: bytes)
    requires Lawful(env) && Usable(t) && above != []
    ensures SealedAnswers(env, [], t, [answer], above, []) ==
            Ok((Connected(env, [], u, above), [Event(Outgoing, DataToSend(F.Frame(sealed))), OPENED]))
    ensures Usable(u) && sealed != answer && Decrypt(env, u.encrypter.value, sealed) == Ok(answer)
  {
    u := t.(drawn := t.drawn + 1);
    sealed := SealedOne(env, t, answer);
    var e := Event(Outgoing, DataToSend(F.Frame(sealed)));
    var r: Out<Stack<LayerState>> := Ok((Connected(env, [], u, above), []));
    calc {
      SealedAnswers(env, [], t, [answer], above, []);
      {
        assert Received([]) == [];
        NothingComesDown(env, [], u, above);
      }
      Then([e], Then([OPENED], r));
      { assert [e] + ([OPENED] + []) == [e, OPENED]; }
      Ok((Connected(env, [], u, above), [e, OPENED]));
    }
  }

  lemma NothingComesDown(env: Env, left: bytes, u: LayerState, above: seq<Layer<LayerState>>)
    requires above != []
    ensures Under(TcpLayer(left), Under(CipherLayer(env, u), StackIn(MakeLayerStack(above), []))) ==
            Ok((Connected(env, left, u, above), []))
  {
    NothingComesIn(MakeLayerStack(above), []);
    NothingToDo(CipherOutgoing(env), Outgoing, u, []);
    NothingToDo(TcpOutgoing, Outgoing, Tcp(left), []);
    NestOver(CipherLayer(env, u), above);
    NestOver(TcpLayer(left), [CipherLayer(env, u)] + above);
  }

  // ----- from the handshake to the payloads -----

  lemma OneResult(env: Env, t: LayerState, result: bytes)
    requires t.Cipher? && !t.phase.Encrypted? && Opens(env, result)
    ensures Process(CipherIncoming(env), Incoming, t, Received([result])) == Ok((t.(phase := Encrypted), [OPENED]))
    ensures BeforeOpening(env, [result]) == 0 && AnswersOf(env, t, [result]) == []
    ensures AfterRead(env, t, [result]) == t.(phase := Encrypted)
  {
    ProcessOne(CipherIncoming(env), Incoming, t, DataReceived(result));
    assert Received([result]) == [Event(Incoming, DataReceived(result))];
    assert [result][..0] == [];
  }

  lemma ResultIsTaken(env: Env, buffer: bytes, t: LayerState, chunk: bytes, result: bytes, left: bytes)
    requires t.Cipher? && !t.phase.Encrypted? && F.Drain(buffer + chunk) == Ok(([result], left)) && Opens(env, result)
    ensures StackIn(Connected(env, buffer, t, []), Read(chunk)) ==
            Ok((Connected(env, left, t.(phase := Encrypted), []), [OPENED]))
  {
    var top := [CipherLayer(env, t)] + [];
    NestOver(TcpLayer(buffer), top);
    ReadPackets(buffer, chunk, MakeLayerStack(top));
    OneResult(env, t, result);
    var plain := ReadAsRaised(env, t, left, [result], []);
    assert Sends(Frames([])) == [] && Received([]) == [] && [] + ([OPENED] + []) == [OPENED];
  }

  lemma ConnectedIs(env: Env, buffer: bytes, t: LayerState)
    ensures Connected(env, buffer, t, []) == Connection(env, buffer, t)
  {
    assert [TcpLayer(buffer)] + ([CipherLayer(env, t)] + []) == [TcpLayer(buffer), CipherLayer(env, t)];
  }

  lemma OneFrame(packet: bytes)
    requires F.Fits(packet)
    ensures F.Drain([] + F.Frame(packet)) == Ok(([packet], []))
  {
    F.FrameRoundTripIff(packet);
    assert [] + F.Frame(packet) == F.Frame(packet);
  }

  lemma FeedTwo(st: Stack<LayerState>, a: bytes, b: bytes, st1: Stack<LayerState>, st2: Stack<LayerState>, x: Event,
                y: Event)
    requires StackIn(st, Read(a)) == Ok((st1, [x])) && StackIn(st1, Read(b)) == Ok((st2, [y]))
    ensures FeedStack(st, [a, b]) == Ok((st2, [x, y]))
  {
    FeedStackStep(st, [a, b], st1, [x]);
    assert [a, b][1..] == [b] && [b][1..] == [];
    FeedStackStep(st1, [b], st2, [y]);
    assert [x] + ([y] + []) == [x, y];
  }

  /**
    A whole handshake: a request to encrypt and then a positive result, in reads of their own.  What leaves
    is the answer to the drawn key k and the challenge, and the channel then encrypts with k.
   */
  lemma HandshakeOpens(env: Env, s: LayerState, request: bytes, challenge: bytes, response: bytes, result: bytes,
                       k: bytes)
    returns (u: LayerState)
    requires Lawful(env) && s.Cipher? && !s.phase.Encrypted? && F.Fits(request) && F.Fits(result) && Opens(env, result)
    requires env.parse(request) == Some(EncryptRequest(1, env.universe, challenge))
    requires k == env.random(s.drawn, 32) && env.answer(k + challenge) == Some(response)
    ensures Usable(u) && u.encrypter == Some(if challenge != [] then SymmetricHMAC(k, k[..16]) else Symmetric(k))
    ensures FeedStack(Connection(env, [], s), [F.Frame(request), F.Frame(result)]) ==
            Ok((Connection(env, [], u), [Event(Outgoing, DataToSend(F.Frame(response))), OPENED]))
  {
    OneFrame(request);
    OneFrame(result);
    var t := HandshakeAnswerIsFramed(env, [], s, F.Frame(request), request, [], challenge, response, []);
    ResultIsTaken(env, [], t, F.Frame(result), result, []);
    u := t.(phase := Encrypted);
    ConnectedIs(env, [], s);
    ConnectedIs(env, [], t);
    ConnectedIs(env, [], u);
    FeedTwo(Connection(env, [], s), F.Frame(request), F.Frame(result), Connection(env, [], t), Connection(env, [], u),
            Event(Outgoing, DataToSend(F.Frame(response))), OPENED);
  }

  /**
    A peer that has recovered k, and takes the kind of encrypter by whether it sent a challenge, receives
    exactly the payloads that this end sends after the handshake, however the frames are cut.
   */
  lemma HandshakeDelivers(env: Env, s: LayerState, request: bytes, challenge: bytes, response: bytes, result: bytes,
                          k: bytes, peer: LayerState, payloads: seq<bytes>, pieces: seq<bytes>)
    requires Lawful(env) && s.Cipher? && !s.phase.Encrypted? && F.Fits(request) && F.Fits(result) && Opens(env, result)
    requires env.parse(request) == Some(EncryptRequest(1, env.universe, challenge))
    requires k == env.random(s.drawn, 32) && env.answer(k + challenge) == Some(response)
    requires peer.Cipher? && peer.phase.Encrypted?
    requires peer.encrypter == Some(if challenge != [] then SymmetricHMAC(k, k[..16]) else Symmetric(k))
    requires forall p :: p in payloads ==> Carried(p)
    ensures var shaken := FeedStack(Connection(env, [], s), [F.Frame(request), F.Frame(result)]);
      && shaken.Ok? && shaken.value.1 == [Event(Outgoing, DataToSend(F.Frame(response))), OPENED]
      && var sent := StackOut(shaken.value.0, Sends(payloads));
         && sent.Ok?
         && exists frames :: sent.value.1 == Sends(frames) && (F.Flatten(pieces) == F.Flatten(frames) ==>
              FeedStack(Connection(env, [], peer), pieces) == Ok((Connection(env, [], peer), Received(payloads))))
  {
    var u := HandshakeOpens(env, s, request, challenge, response, result, k);
    SendPayloads(env, [], u, payloads);
    var frames := Frames(EncryptAll(env, u.encrypter.value, u.drawn, payloads));
    if F.Flatten(pieces) == F.Flatten(frames) {
      PayloadsAreDelivered(env, [], u, peer, payloads, pieces);
    }
  }

  // ----- a result without a challenge -----

  /**
    The layer counts itself encrypted after a positive result even if no challenge came before.  If it
    has no encrypter then, any data sent through it or received by it panics; if it has one, sending
    does not panic, and receiving panics exactly on the data that the cipher panics on.
   */
  lemma ResultWithoutChallenge(env: Env, s: LayerState, result: bytes, data: bytes)
    requires C.Sized(env.primitives)
    requires s.Cipher? && !s.phase.Encrypted? && env.parse(result) == Some(EncryptResult(true))
    ensures var t := HandleData(env, s, result);
      && t.Ok? && t.value.0.phase.Encrypted?
      && (HandleData(env, t.value.0, data) == Err(PANIC) <==>
            s.encrypter.None? || C.Panics(env.primitives, s.encrypter.value.key, data))
      && (SendData(env, t.value.0, data) == Err(PANIC) <==> s.encrypter.None?)
  {
    var t := HandleData(env, s, result).value.0;
    ReceivePanicsIff(env, t, data);
    SendPanicsIff(env, t, data);
  }
}
