/**
  Two ends of an encrypted connection that send and read in any order.  A step is one payload sent
  through an end's stack, or one read of some of the bytes that are under way to it.
 */
module Duplex {
  import opened Prelude
  import opened Layers
  import opened Channel
  import opened Delivery
  import F = Framing

  /** `sent` and `got` are the payloads that went in and out at the top of the stack. */
  datatype End = End(stack: Stack<LayerState>, sent: seq<bytes>, got: seq<bytes>)

  datatype Side = Left | Right

  /** `toLeft` and `toRight` are the bytes under way to an end. */
  datatype Sys = Sys(left: End, right: End, toLeft: bytes, toRight: bytes) {
    function At(side: Side): End {
      if side.Left? then left else right
    }

    /** The bytes under way to an end. */
    function To(side: Side): bytes {
      if side.Left? then toLeft else toRight
    }

    function With(side: Side, end: End, arriving: bytes, leaving: bytes): Sys {
      if side.Left? then Sys(end, right, arriving, leaving) else Sys(left, end, leaving, arriving)
    }
  }

  function Other(side: Side): Side {
    if side.Left? then Right else Left
  }

  datatype Step = Send(side: Side, payload: bytes) | Read(side: Side, n: nat)

  /** The bytes written to the transport for a list of events. */
  function Written(events: seq<Event>): bytes {
    if events == [] then []
    else (if events[0].payload.DataToSend? then events[0].payload.data else []) + Written(events[1..])
  }

  /** The data that comes out at the top. */
  function Arrived(events: seq<Event>): seq<bytes> {
    if events == [] then []
    else (if events[0].payload.DataReceived? then [events[0].payload.data] else []) + Arrived(events[1..])
  }

  predicate Enabled(s: Sys, step: Step) {
    match step
    case Send(_, payload) => Carried(payload)
    case Read(side, n) => n <= |s.To(side)|
  }

  function Next(s: Sys, step: Step): Result<Sys, Error>
    requires Enabled(s, step)
  {
    var side := step.side;
    var end, arriving, leaving := s.At(side), s.To(side), s.To(Other(side));
    match step
    case Send(_, payload) =>
      var (stack, out) :- StackOut(end.stack, [Event(Outgoing, DataToSend(payload))]);
      Ok(s.With(side, end.(stack := stack, sent := end.sent + [payload]), arriving, leaving + Written(out)))
    case Read(_, n) =>
      var (stack, out) :- StackIn(end.stack, [Event(Incoming, DataReceived(arriving[..n]))]);
      Ok(s.With(side, end.(stack := stack, got := end.got + Arrived(out)), arriving[n..], leaving + Written(out)))
  }

  ghost predicate Opened(env: Env, e: Encrypter, end: End) {
    exists s: LayerState :: Usable(s) && s.encrypter == Some(e) && end == End(Connection(env, [], s), [], [])
  }

  ghost predicate IsRun(env: Env, e: Encrypter, states: seq<Sys>, steps: seq<Step>) {
    && |states| == |steps| + 1
    && Opened(env, e, states[0].left) && Opened(env, e, states[0].right)
    && states[0].toLeft == [] && states[0].toRight == []
    && forall i :: 0 <= i < |steps| ==> Enabled(states[i], steps[i]) && Next(states[i], steps[i]) == Ok(states[i + 1])
  }

  // ----- the invariant -----

  /** What is buffered and under way is exactly the frames of the payloads that are still to come out. */
  ghost predicate Flows(env: Env, e: Encrypter, buffer: bytes, wire: bytes, sent: seq<bytes>, got: seq<bytes>) {
    && F.TryRead(buffer).Short? && got <= sent
    && F.Drain(buffer + wire).Ok? && F.Drain(buffer + wire).value.1 == []
    && Decrypts(env, e, F.Drain(buffer + wire).value.0, sent[|got|..])
  }

  function Buffered(end: End): bytes {
    if end.stack.Over? && end.stack.bottom.state.Tcp? then end.stack.bottom.state.buffer else []
  }

  ghost predicate EndOk(env: Env, e: Encrypter, end: End) {
    exists s: LayerState ::
      Usable(s) && s.encrypter == Some(e) && end.stack == Connection(env, Buffered(end), s)
  }

  ghost predicate SideOk(env: Env, e: Encrypter, end: End, wire: bytes, sent: seq<bytes>) {
    EndOk(env, e, end) && Flows(env, e, Buffered(end), wire, sent, end.got)
  }

  ghost predicate Inv(env: Env, e: Encrypter, s: Sys) {
    SideOk(env, e, s.left, s.toLeft, s.right.sent) && SideOk(env, e, s.right, s.toRight, s.left.sent)
  }

  lemma OneMoreFrame(all: bytes, packets: seq<bytes>, c: bytes)
    requires F.Drain(all) == Ok((packets, [])) && F.Fits(c)
    ensures F.Drain(all + F.Frame(c)) == Ok((packets + [c], []))
  {
    F.DrainSplit(all, F.Frame(c));
    F.FrameRoundTripIff(c);
    assert [] + F.Frame(c) == F.Frame(c);
  }

  lemma SentFlows(env: Env, e: Encrypter, buffer: bytes, wire: bytes, sent: seq<bytes>, got: seq<bytes>, p: bytes,
                  c: bytes)
    requires Flows(env, e, buffer, wire, sent, got) && F.Fits(c) && Decrypt(env, e, c) == Ok(p)
    ensures Flows(env, e, buffer, wire + F.Frame(c), sent + [p], got)
  {
    OneMoreFrame(buffer + wire, F.Drain(buffer + wire).value.0, c);
    Associate(buffer, wire, F.Frame(c));
    assert (sent + [p])[|got|..] == sent[|got|..] + [p];
  }

  lemma DrainCut(buffer: bytes, wire: bytes, n: nat, all: seq<bytes>)
    returns (packets: seq<bytes>, left: bytes, rest: seq<bytes>)
    requires F.Drain(buffer + wire) == Ok((all, [])) && n <= |wire|
    ensures F.Drain(buffer + wire[..n]) == Ok((packets, left)) && F.TryRead(left).Short?
    ensures F.Drain(left + wire[n..]) == Ok((rest, [])) && all == packets + rest
  {
    assert buffer + wire == buffer + wire[..n] + wire[n..];
    F.DrainSplit(buffer + wire[..n], wire[n..]);
    F.DrainLeavesShort(buffer + wire[..n]);
    var r := F.Drain(buffer + wire[..n]).value;
    packets, left, rest := r.0, r.1, F.Drain(r.1 + wire[n..]).value.0;
  }

  lemma ReadFlows(env: Env, e: Encrypter, buffer: bytes, wire: bytes, sent: seq<bytes>, got: seq<bytes>, n: nat)
    returns (left: bytes, packets: seq<bytes>, payloads: seq<bytes>)
    requires Flows(env, e, buffer, wire, sent, got) && n <= |wire|
    ensures F.Drain(buffer + wire[..n]) == Ok((packets, left)) && Decrypts(env, e, packets, payloads)
    ensures Flows(env, e, left, wire[n..], sent, got + payloads)
  {
    var more, rest := sent[|got|..], [];
    packets, left, rest := DrainCut(buffer, wire, n, F.Drain(buffer + wire).value.0);
    DecryptsCut(env, e, packets, rest, more);
    payloads := more[..|packets|];
    assert sent == got + more;
    assert sent[|got + payloads|..] == more[|packets|..];
    assert got + payloads == sent[..|got| + |packets|];
  }

  // ----- every step keeps it -----

  lemma EndIs(env: Env, e: Encrypter, end: End, buffer: bytes, s: LayerState)
    requires Usable(s) && s.encrypter == Some(e) && end.stack == Connection(env, buffer, s)
    ensures EndOk(env, e, end) && Buffered(end) == buffer
  {
    ConnectionIsNested(env, buffer, s);
  }

  lemma SendOnePayload(env: Env, buffer: bytes, s: LayerState, p: bytes) returns (c: bytes)
    requires Lawful(env) && Usable(s) && Carried(p)
    ensures StackOut(Connection(env, buffer, s), [Event(Outgoing, DataToSend(p))]) ==
            Ok((Connection(env, buffer, s.(drawn := s.drawn + 1)), [Event(Outgoing, DataToSend(F.Frame(c)))]))
    ensures F.Fits(c) && Decrypt(env, s.encrypter.value, c) == Ok(p)
  {
    var packets := EncryptAll(env, s.encrypter.value, s.drawn, [p]);
    c := packets[0];
    assert Sends([p]) == [Event(Outgoing, DataToSend(p))];
    SendPayloads(env, buffer, s, [p]);
    EncryptAllBack(env, s.encrypter.value, s.drawn, [p]);
    EncryptAllFits(env, s.encrypter.value, s.drawn, [p]);
    assert Sends(Frames(packets)) == [Event(Outgoing, DataToSend(F.Frame(c)))];
  }

  lemma EndSends(env: Env, e: Encrypter, end: End, p: bytes) returns (stack: Stack<LayerState>, c: bytes)
    requires Lawful(env) && EndOk(env, e, end) && Carried(p)
    ensures StackOut(end.stack, [Event(Outgoing, DataToSend(p))]) ==
            Ok((stack, [Event(Outgoing, DataToSend(F.Frame(c)))]))
    ensures F.Fits(c) && Decrypt(env, e, c) == Ok(p)
    ensures var end' := end.(stack := stack, sent := end.sent + [p]);
      EndOk(env, e, end') && Buffered(end') == Buffered(end)
  {
    var s: LayerState :| Usable(s) && s.encrypter == Some(e) && end.stack == Connection(env, Buffered(end), s);
    c := SendOnePayload(env, Buffered(end), s, p);
    var t := s.(drawn := s.drawn + 1);
    stack := Connection(env, Buffered(end), t);
    EndIs(env, e, end.(stack := stack, sent := end.sent + [p]), Buffered(end), t);
  }

  lemma {:induction false} ReceivedArrives(payloads: seq<bytes>)
    ensures Arrived(Received(payloads)) == payloads && Written(Received(payloads)) == []
  {
    if payloads == [] {
      assert Received(payloads) == [];
    } else {
      ReceivedFirst(payloads);
      ReceivedArrives(payloads[1..]);
    }
  }

  lemma EndReads(env: Env, e: Encrypter, end: End, wire: bytes, sent: seq<bytes>, n: nat)
    returns (stack: Stack<LayerState>, payloads: seq<bytes>)
    requires EndOk(env, e, end) && Flows(env, e, Buffered(end), wire, sent, end.got) && n <= |wire|
    ensures StackIn(end.stack, [Event(Incoming, DataReceived(wire[..n]))]) == Ok((stack, Received(payloads)))
    ensures var end' := end.(stack := stack, got := end.got + payloads);
      EndOk(env, e, end') && Flows(env, e, Buffered(end'), wire[n..], sent, end'.got)
  {
    var s: LayerState :| Usable(s) && s.encrypter == Some(e) && end.stack == Connection(env, Buffered(end), s);
    var left, packets, payloads' := ReadFlows(env, e, Buffered(end), wire, sent, end.got, n);
    payloads := payloads';
    ReceiveChunk(env, Buffered(end), s, wire[..n], payloads);
    stack := Connection(env, left, s);
    EndIs(env, e, end.(stack := stack, got := end.got + payloads), left, s);
  }

  lemma SendInv(env: Env, e: Encrypter, s: Sys, side: Side, p: bytes)
    requires Lawful(env) && Inv(env, e, s) && Carried(p)
    ensures Next(s, Send(side, p)).Ok? && Inv(env, e, Next(s, Send(side, p)).value)
  {
    var end, far, wire := s.At(side), s.At(Other(side)), s.To(Other(side));
    var stack, c := EndSends(env, e, end, p);
    SentFlows(env, e, Buffered(far), wire, end.sent, far.got, p, c);
    assert Written([Event(Outgoing, DataToSend(F.Frame(c)))]) == F.Frame(c) + [] == F.Frame(c);
  }

  lemma ReadInv(env: Env, e: Encrypter, s: Sys, side: Side, n: nat)
    requires Inv(env, e, s) && n <= |s.To(side)|
    ensures Next(s, Read(side, n)).Ok? && Inv(env, e, Next(s, Read(side, n)).value)
  {
    var leaving := s.To(Other(side));
    var stack, payloads := EndReads(env, e, s.At(side), s.To(side), s.At(Other(side)).sent, n);
    ReceivedArrives(payloads);
    assert leaving + [] == leaving;
  }

  lemma StepInv(env: Env, e: Encrypter, s: Sys, step: Step)
    requires Lawful(env) && Inv(env, e, s) && Enabled(s, step)
    ensures Next(s, step).Ok? && Inv(env, e, Next(s, step).value)
  {
    match step
    case Send(side, p) => SendInv(env, e, s, side, p);
    case Read(side, n) => ReadInv(env, e, s, side, n);
  }

  lemma {:induction false} RunInv(env: Env, e: Encrypter, states: seq<Sys>, steps: seq<Step>, i: nat)
    requires Lawful(env) && IsRun(env, e, states, steps) && i < |states|
    ensures Inv(env, e, states[i])
  {
    if i == 0 {
      OpenedSide(env, e, states[0].left);
      OpenedSide(env, e, states[0].right);
    } else {
      RunInv(env, e, states, steps, i - 1);
      StepInv(env, e, states[i - 1], steps[i - 1]);
    }
  }

  lemma OpenedSide(env: Env, e: Encrypter, end: End)
    requires Opened(env, e, end)
    ensures SideOk(env, e, end, [], []) && end.sent == []
  {
    var s: LayerState :| Usable(s) && s.encrypter == Some(e) && end == End(Connection(env, [], s), [], []);
    EndIs(env, e, end, [], s);
    assert F.Drain([]) == Ok(([], []));
  }

  // ----- what holds over whole runs -----

  /** No step of a run fails: whatever the ends have done, they can go on sending and reading. */
  lemma NoStepFails(env: Env, e: Encrypter, states: seq<Sys>, steps: seq<Step>, i: nat, step: Step)
    requires Lawful(env) && IsRun(env, e, states, steps) && i < |states| && Enabled(states[i], step)
    ensures Next(states[i], step).Ok?
  {
    RunInv(env, e, states, steps, i);
    StepInv(env, e, states[i], step);
  }

  /**
    In both directions at once, whatever the order of sends and reads and however much each read takes:
    what has come out at one end is a beginning of what went in at the other, in order, and all of it
    once nothing is under way.
   */
  lemma BothAreDelivered(env: Env, e: Encrypter, states: seq<Sys>, steps: seq<Step>, i: nat, side: Side)
    requires Lawful(env) && IsRun(env, e, states, steps) && i < |states|
    ensures states[i].At(side).got <= states[i].At(Other(side)).sent
    ensures states[i].To(side) == [] ==> states[i].At(side).got == states[i].At(Other(side)).sent
  {
    RunInv(env, e, states, steps, i);
    var s := states[i];
    FlowsOut(env, e, Buffered(s.At(side)), s.To(side), s.At(Other(side)).sent, s.At(side).got);
  }

  lemma FlowsOut(env: Env, e: Encrypter, buffer: bytes, wire: bytes, sent: seq<bytes>, got: seq<bytes>)
    requires Flows(env, e, buffer, wire, sent, got)
    ensures got <= sent && (wire == [] ==> got == sent)
  {
    if wire == [] {
      assert buffer + wire == buffer;
      assert sent == sent[..|got|] + sent[|got|..];
    }
  }
}
