/**
  Replies to what a layer raised while sending: they leave the stack past that layer's own outgoing
  handler, and when that makes a difference.
 */
module Bounces {
  import opened Prelude
  import opened Layers

  /** What was sent and raised by layer `l` below `top`: the layers after it, what goes on down, and what comes back. */
  datatype Bounce<!S> = Bounce(l: Layer<S>, top: Stack<S>, sent: seq<Event>, back: seq<Event>)

  /**
    The events go down through `top` and `l`.  Of what `l` returns, the incoming events go up through
    `top` again, and what `top` returns for them comes back.
   */
  function SendAndBounce<S>(l: Layer<S>, top: Stack<S>, events: seq<Event>): Result<Bounce<S>, Error> {
    var (top1, out) :- StackOut(top, Only(events, Outgoing));
    var (l1, raised) :- LayerOut(l, out);
    var (top2, back) :- StackIn(top1, Only(raised, Incoming));
    Ok(Bounce(l1, top2, Except(raised, Incoming), back))
  }

  /** What comes back leaves as it is. */
  function PastTheRaiser<S>(l: Layer<S>, top: Stack<S>, events: seq<Event>): Out<Stack<S>> {
    var b :- SendAndBounce(l, top, events);
    Ok((Over(b.l, b.top), Except(events, Outgoing) + (b.sent + b.back)))
  }

  /** What comes back goes down through the outgoing handler of the layer that raised it. */
  function ThroughTheRaiser<S>(l: Layer<S>, top: Stack<S>, events: seq<Event>): Out<Stack<S>> {
    var b :- SendAndBounce(l, top, events);
    var (l2, back) :- LayerOut(b.l, b.back);
    Ok((Over(l2, b.top), Except(events, Outgoing) + (b.sent + back)))
  }

  /**
    For any layer, any stack above it and any events: what comes back leaves past the handler of the
    layer that raised it.  A single layer above may put it among what was sent instead of behind it.
   */
  lemma RepliesLeavePastTheRaiser<S>(l: Layer<S>, top: Stack<S>, events: seq<Event>)
    ensures Forwards(StackOut(Over(l, top), events), PastTheRaiser(l, top, events), multiset{})
    ensures top.Over? ==> StackOut(Over(l, top), events) == PastTheRaiser(l, top, events)
  {
    var sending := StackOut(top, Only(events, Outgoing));
    if sending.Ok? {
      var (top1, out) := sending.value;
      if LayerOut(l, out).Ok? {
        var raised := LayerOut(l, out).value.1;
        OthersAreForwarded(top1, raised);
        StillOver(top, Only(events, Outgoing));
        if top1.Over? {
          RaisedBelowComesFirst(top1, raised);
        }
      }
    }
  }

  lemma StillOver<S>(st: Stack<S>, events: seq<Event>)
    ensures StackOut(st, events).Ok? ==> (StackOut(st, events).value.0.Over? <==> st.Over?)
  {}

  /**
    It makes no difference to the layers and the events exactly if the handler that is missed would
    have left what comes back, and its own state, as they are.
   */
  lemma MissingTheRaiserIsHarmlessIff<S>(l: Layer<S>, top: Stack<S>, events: seq<Event>)
    ensures var b := SendAndBounce(l, top, events);
      var same := b.Ok? ==> LayerOut(b.value.l, b.value.back) == Ok((b.value.l, b.value.back));
      && (PastTheRaiser(l, top, events) == ThroughTheRaiser(l, top, events) <==> same)
      && (top.Over? ==> (StackOut(Over(l, top), events) == ThroughTheRaiser(l, top, events) <==> same))
  {
    RepliesLeavePastTheRaiser(l, top, events);
    var r := SendAndBounce(l, top, events);
    if r.Ok? {
      var b := r.value;
      var through := LayerOut(b.l, b.back);
      if through.Ok? {
        var front := Except(events, Outgoing) + b.sent;
        Associate(Except(events, Outgoing), b.sent, b.back);
        Associate(Except(events, Outgoing), b.sent, through.value.1);
        assert (front + b.back)[|front|..] == b.back;
        assert (front + through.value.1)[|front|..] == through.value.1;
      }
    }
  }

  /** Nothing comes back to any layer of a list that does not answer what is sent with incoming events. */
  lemma NothingComesBack<S(!new)>(l: Layer<S>, above: seq<Layer<S>>, events: seq<Event>)
    requires above != [] && Descends([l] + above)
    ensures var b := SendAndBounce(l, MakeLayerStack(above), events); b.Ok? ==> b.value.back == []
  {
    var own := Only(events, Outgoing);
    assert Descends(above) by {
      assert forall i :: 0 <= i < |above| ==> ([l] + above)[i + 1] == above[i];
    }
    OnlyIsAll(events, Outgoing);
    OutgoingGoesStraightDown(above, own);
    StraightDown(above, own);
    var sending := SendDown(above, own);
    if sending.Ok? && LayerOut(l, sending.value.1).Ok? {
      assert Never(([l] + above)[0].outgoing, Incoming);
      StaysNone(l.outgoing, Outgoing, l.state, sending.value.1, Incoming);
      OnlyOfNone(LayerOut(l, sending.value.1).value.1, Incoming);
      NothingComesIn(MakeLayerStack(sending.value.0), []);
    }
  }

  function KeepIn(s: int, p: Payload): Out<int> {
    Ok((s, [Event(Incoming, p)]))
  }

  function KeepOut(s: int, p: Payload): Out<int> {
    Ok((s, [Event(Outgoing, p)]))
  }

  function TurnBack(s: int, p: Payload): Out<int> {
    if p.DataToSend? then Ok((s + 1, [Event(Incoming, DataReceived(p.data))])) else KeepOut(s, p)
  }

  function Reply(s: int, p: Payload): Out<int> {
    if p.DataReceived? then Ok((s + 1, [Event(Outgoing, DataToSend(p.data))])) else KeepIn(s, p)
  }

  /**
    A reply to an event that a layer raised while sending leaves the stack without passing that layer's
    own outgoing handler: here the lower layer turns what is sent back, but not the reply to that.
   */
  lemma BouncedReplySkipsTheRaiser(m: int, n: int, data: bytes)
    ensures var back, over := Layer(m, KeepIn, TurnBack), Layer(n, Reply, KeepOut);
      var sent := Event(Outgoing, DataToSend(data));
      StackOut(MakeLayerStack([back, over]), [sent]) ==
      Ok((MakeLayerStack([back.(state := m + 1), over.(state := n + 1)]), [sent]))
  {
    var back, over := Layer(m, KeepIn, TurnBack), Layer(n, Reply, KeepOut);
    var sent, received := Event(Outgoing, DataToSend(data)), Event(Incoming, DataReceived(data));
    NestOver(back, [over]);
    NestOver(back.(state := m + 1), [over.(state := n + 1)]);
    OnlyOfAll([sent], Outgoing);
    ProcessOne(KeepOut, Outgoing, n, DataToSend(data));
    ProcessOne(TurnBack, Outgoing, m, DataToSend(data));
    ProcessOne(Reply, Incoming, n, DataReceived(data));
    assert [] + [sent] == [sent];
  }
}
