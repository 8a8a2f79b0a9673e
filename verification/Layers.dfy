/**
  The layer stack of a connection.  A layer is a state with two handlers, one for the incoming and
  one for the outgoing events; it leaves events of another direction where they are.  A stack nests
  a bottom layer under the stack above it.

  Layers are objects of many types behind an interface; here a layer carries its state as a value
  of the type `S`, and processing returns the updated layer.
 */
module Layers {
  import opened Prelude

  datatype Direction = Incoming | Outgoing | State

  datatype Payload =
    | DataReceived(data: bytes)
    | DataToSend(data: bytes)
    | ChannelEncrypted
    | Message(id: nat)

  datatype Event = Event(direction: Direction, payload: Payload)

  datatype Error = Error(layer: string, code: nat)

  /** Something updated, and the events it returns. */
  type Out<X> = Result<(X, seq<Event>), Error>

  type Handler<!S> = (S, Payload) -> Out<S>

  datatype Layer<!S> = Layer(state: S, incoming: Handler<S>, outgoing: Handler<S>)

  /** Nested pairs, bottom first. */
  datatype Stack<!S> = Single(layer: Layer<S>) | Over(bottom: Layer<S>, top: Stack<S>)

  function MakeLayerStack<S>(layers: seq<Layer<S>>): Stack<S>
    requires layers != []
  {
    if |layers| == 1 then Single(layers[0]) else Over(layers[0], MakeLayerStack(layers[1..]))
  }

  // ----- processing -----

  function Only(events: seq<Event>, d: Direction): seq<Event> {
    if events == [] then []
    else if events[0].direction == d then [events[0]] + Only(events[1..], d)
    else Only(events[1..], d)
  }

  function Except(events: seq<Event>, d: Direction): seq<Event> {
    if events == [] then []
    else if events[0].direction != d then [events[0]] + Except(events[1..], d)
    else Except(events[1..], d)
  }

  function Then<X>(front: seq<Event>, r: Out<X>): Out<X> {
    if r.Ok? then Ok((r.value.0, front + r.value.1)) else r
  }

  /** The event loop of every layer. */
  function Process<S>(h: Handler<S>, d: Direction, s: S, events: seq<Event>): Out<S> {
    if events == [] then Ok((s, []))
    else if events[0].direction != d then Then([events[0]], Process(h, d, s, events[1..]))
    else
      var (s1, out) :- h(s, events[0].payload);
      Then(out, Process(h, d, s1, events[1..]))
  }

  function LayerIn<S>(l: Layer<S>, events: seq<Event>): Out<Layer<S>> {
    var (s, out) :- Process(l.incoming, Incoming, l.state, events);
    Ok((l.(state := s), out))
  }

  function LayerOut<S>(l: Layer<S>, events: seq<Event>): Out<Layer<S>> {
    var (s, out) :- Process(l.outgoing, Outgoing, l.state, events);
    Ok((l.(state := s), out))
  }

  function StackIn<S>(st: Stack<S>, events: seq<Event>): Out<Stack<S>> {
    match st
    case Single(layer) =>
      var (l, out) :- LayerIn(layer, events);
      Ok((Single(l), out))
    case Over(bottom, top) =>
      var (b1, e1) :- LayerIn(bottom, Only(events, Incoming));
      var (t, e2) :- StackIn(top, e1);
      var (b2, e3) :- LayerOut(b1, e2);
      Ok((Over(b2, t), Except(events, Incoming) + e3))
  }

  function StackOut<S>(st: Stack<S>, events: seq<Event>): Out<Stack<S>> {
    match st
    case Single(layer) =>
      var (l, out) :- LayerOut(layer, events);
      Ok((Single(l), out))
    case Over(bottom, top) =>
      var (t1, e1) :- StackOut(top, Only(events, Outgoing));
      var (b, e2) :- LayerOut(bottom, e1);
      var (t2, e3) :- StackIn(t1, e2);
      Ok((Over(b, t2), Except(events, Outgoing) + e3))
  }

  /** The loop that splits events by direction, keeping their order. */
  method SplitEvents(events: seq<Event>, d: Direction) returns (process: seq<Event>, forward: seq<Event>)
    ensures process == Only(events, d) && forward == Except(events, d)
  {
    process, forward := [], [];
    var i := 0;
    while i < |events|
      invariant 0 <= i <= |events|
      invariant process == Only(events[..i], d) && forward == Except(events[..i], d)
    {
      SplitOneMore(events[..i], events[i], d);
      assert events[..i + 1] == events[..i] + [events[i]];
      if events[i].direction == d {
        process := process + [events[i]];
      } else {
        forward := forward + [events[i]];
      }
      i := i + 1;
    }
    assert events[..i] == events;
  }

  lemma {:induction false} SplitConcat(a: seq<Event>, b: seq<Event>, d: Direction)
    ensures Only(a + b, d) == Only(a, d) + Only(b, d)
    ensures Except(a + b, d) == Except(a, d) + Except(b, d)
  {
    if a == [] {
      assert a + b == b;
    } else {
      SplitConcat(a[1..], b, d);
      assert (a + b)[0] == a[0] && (a + b)[1..] == a[1..] + b;
      Associate([a[0]], Only(a[1..], d), Only(b, d));
      Associate([a[0]], Except(a[1..], d), Except(b, d));
    }
  }

  lemma {:induction false} OnlyIsAll(events: seq<Event>, d: Direction)
    ensures All(Only(events, d), d) && None(Except(events, d), d)
  {
    if events == [] {
    } else {
      OnlyIsAll(events[1..], d);
    }
  }

  lemma SplitOneMore(a: seq<Event>, e: Event, d: Direction)
    ensures Only(a + [e], d) == Only(a, d) + if e.direction == d then [e] else []
    ensures Except(a + [e], d) == Except(a, d) + if e.direction == d then [] else [e]
  {
    SplitConcat(a, [e], d);
  }

  // ----- one layer -----

  ghost predicate None(events: seq<Event>, d: Direction) {
    forall e :: e in events ==> e.direction != d
  }

  ghost predicate All(events: seq<Event>, d: Direction) {
    forall e :: e in events ==> e.direction == d
  }

  lemma {:induction false} OnlyOfNone(events: seq<Event>, d: Direction)
    requires None(events, d)
    ensures Only(events, d) == [] && Except(events, d) == events
  {
    if events == [] {
    } else {
      OnlyOfNone(events[1..], d);
      assert events == [events[0]] + events[1..];
    }
  }

  lemma {:induction false} OnlyOfAll(events: seq<Event>, d: Direction)
    requires All(events, d)
    ensures Only(events, d) == events && Except(events, d) == []
  {
    if events == [] {
    } else {
      OnlyOfAll(events[1..], d);
      assert events == [events[0]] + events[1..];
    }
  }

  /** A handler that never emits events of the given direction. */
  ghost predicate Never<S(!new)>(h: Handler<S>, d: Direction) {
    forall s, p :: h(s, p).Ok? ==> None(h(s, p).value.1, d)
  }

  /** `x` is `y` with the further events `extra`, which no layer has touched. */
  ghost predicate Forwards<X>(x: Out<X>, y: Out<X>, extra: multiset<Event>) {
    if x.Ok? then y.Ok? && x.value.0 == y.value.0 && multiset(x.value.1) == multiset(y.value.1) + extra
    else x == y
  }

  lemma ThenForwards<X>(front: seq<Event>, x: Out<X>, y: Out<X>, extra: multiset<Event>)
    requires Forwards(x, y, extra)
    ensures Forwards(Then(front, x), Then(front, y), extra)
    ensures Forwards(Then(front, x), y, multiset(front) + extra)
  {}

  /** What a layer does with the events of its own direction alone; the others are all still there. */
  lemma {:induction false} OthersStay<S>(h: Handler<S>, d: Direction, s: S, events: seq<Event>)
    ensures Forwards(Process(h, d, s, events), Process(h, d, s, Only(events, d)), multiset(Except(events, d)))
  {
    if events == [] {
    } else {
      var e, more := events[0], events[1..];
      if e.direction != d {
        OthersStay(h, d, s, more);
        ThenForwards([e], Process(h, d, s, more), Process(h, d, s, Only(more, d)), multiset(Except(more, d)));
        assert multiset(Except(events, d)) == multiset([e]) + multiset(Except(more, d));
      } else if h(s, e.payload).Ok? {
        var (s1, out) := h(s, e.payload).value;
        OthersStay(h, d, s1, more);
        assert Only(events, d)[1..] == Only(more, d);
        ThenForwards(out, Process(h, d, s1, more), Process(h, d, s1, Only(more, d)), multiset(Except(more, d)));
      } else {
        assert Only(events, d)[0] == e;
      }
    }
  }

  lemma {:induction false} NothingToDo<S>(h: Handler<S>, d: Direction, s: S, events: seq<Event>)
    requires None(events, d)
    ensures Process(h, d, s, events) == Ok((s, events))
  {
    if events == [] {
    } else {
      NothingToDo(h, d, s, events[1..]);
      assert events == [events[0]] + events[1..];
    }
  }

  lemma ProcessOne<S>(h: Handler<S>, d: Direction, s: S, p: Payload)
    ensures Process(h, d, s, [Event(d, p)]) == h(s, p)
  {
    var events := [Event(d, p)];
    assert events[1..] == [];
    if h(s, p).Ok? {
      assert h(s, p).value.1 + [] == h(s, p).value.1;
    }
  }

  lemma {:induction false} StaysNone<S(!new)>(h: Handler<S>, d: Direction, s: S, events: seq<Event>, none: Direction)
    requires Never(h, none) && d != none && None(events, none) && Process(h, d, s, events).Ok?
    ensures None(Process(h, d, s, events).value.1, none)
  {
    if events == [] {
    } else {
      if events[0].direction != d {
        StaysNone(h, d, s, events[1..], none);
      } else {
        StaysNone(h, d, h(s, events[0].payload).value.0, events[1..], none);
      }
    }
  }

  lemma {:induction false} NothingComesIn<S>(st: Stack<S>, events: seq<Event>)
    requires None(events, Incoming)
    ensures StackIn(st, events) == Ok((st, events))
  {
    match st
    case Single(layer) => NothingToDo(layer.incoming, Incoming, layer.state, events);
    case Over(bottom, top) =>
      OnlyOfNone(events, Incoming);
      NothingComesIn(top, []);
      assert events + [] == events;
  }

  // ----- events of other directions are forwarded -----

  lemma {:induction false} OnlyTwice(events: seq<Event>, d: Direction)
    ensures Only(Only(events, d), d) == Only(events, d) && Except(Only(events, d), d) == []
  {
    if events == [] {
    } else {
      OnlyTwice(events[1..], d);
    }
  }

  /** A stack loses and alters no event of another direction. */
  lemma OthersAreForwarded<S>(st: Stack<S>, events: seq<Event>)
    ensures Forwards(StackIn(st, events), StackIn(st, Only(events, Incoming)), multiset(Except(events, Incoming)))
    ensures Forwards(StackOut(st, events), StackOut(st, Only(events, Outgoing)), multiset(Except(events, Outgoing)))
  {
    match st
    case Single(layer) =>
      OthersStay(layer.incoming, Incoming, layer.state, events);
      OthersStay(layer.outgoing, Outgoing, layer.state, events);
    case Over(_, _) =>
      ForwardedIn(st, events);
      ForwardedOut(st, events);
  }

  /**
    Inside a stack, what the layer below raised besides incoming events (its own replies, state
    events) is passed on in front of whatever the layers above return.
   */
  lemma RaisedBelowComesFirst<S>(st: Stack<S>, events: seq<Event>)
    requires st.Over?
    ensures StackIn(st, events) == Then(Except(events, Incoming), StackIn(st, Only(events, Incoming)))
  {
    OnlyTwice(events, Incoming);
    var r1 := LayerIn(st.bottom, Only(events, Incoming));
    if r1.Ok? {
      var r2 := StackIn(st.top, r1.value.1);
      if r2.Ok? {
        var r3 := LayerOut(r1.value.0, r2.value.1);
        if r3.Ok? {
          assert [] + r3.value.1 == r3.value.1;
        }
      }
    }
  }

  lemma ForwardedIn<S>(st: Stack<S>, events: seq<Event>)
    requires st.Over?
    ensures Forwards(StackIn(st, events), StackIn(st, Only(events, Incoming)), multiset(Except(events, Incoming)))
  {
    OnlyTwice(events, Incoming);
  }

  lemma ForwardedOut<S>(st: Stack<S>, events: seq<Event>)
    requires st.Over?
    ensures Forwards(StackOut(st, events), StackOut(st, Only(events, Outgoing)), multiset(Except(events, Outgoing)))
  {
    OnlyTwice(events, Outgoing);
  }

  // ----- the flat list of layers: incoming events go up, and what is raised comes down -----

  /**
    Up through the layers, bottom first: each works on the incoming events that the one below it
    returned.  For each layer, `raised` is what else it returned; for the top one, all that it
    returned, among which the events raised just below it keep their place.
   */
  function Up<S>(layers: seq<Layer<S>>, events: seq<Event>): (r: Result<(seq<Layer<S>>, seq<seq<Event>>), Error>)
    requires layers != []
    ensures r.Ok? ==> |r.value.0| == |layers| == |r.value.1|
  {
    var (l, out) :- LayerIn(layers[0], events);
    if |layers| == 1 then Ok(([l], [out]))
    else
      var (above, raised) :- Up(layers[1..], if |layers| == 2 then out else Only(out, Incoming));
      Ok(([l] + above, [if |layers| == 2 then [] else Except(out, Incoming)] + raised))
  }

  /**
    Down again: what a layer raised, followed by what comes from above, goes through that layer's
    outgoing handler.  Only the top layer's own events do not go through its own.
   */
  function Down<S>(layers: seq<Layer<S>>, raised: seq<seq<Event>>): (r: Out<seq<Layer<S>>>)
    requires layers != [] && |layers| == |raised|
    ensures r.Ok? ==> |r.value.0| == |layers|
  {
    if |layers| == 1 then Ok((layers, raised[0]))
    else
      var (above, out) :- Down(layers[1..], raised[1..]);
      var (l, out') :- LayerOut(layers[0], raised[0] + out);
      Ok(([l] + above, out'))
  }

  function UpAndDown<S>(layers: seq<Layer<S>>, events: seq<Event>): (r: Out<seq<Layer<S>>>)
    requires layers != []
    ensures r.Ok? ==> |r.value.0| == |layers|
  {
    var (up, raised) :- Up(layers, events);
    Down(up, raised)
  }

  /** All events given to the layers: those that do not come in stay in front. */
  function FlatIn<S>(layers: seq<Layer<S>>, events: seq<Event>): (r: Out<seq<Layer<S>>>)
    requires layers != []
    ensures r.Ok? ==> |r.value.0| == |layers|
  {
    if |layers| == 1 then UpAndDown(layers, events)
    else Then(Except(events, Incoming), UpAndDown(layers, Only(events, Incoming)))
  }

  function Nest<S>(r: Out<seq<Layer<S>>>): Out<Stack<S>>
    requires r.Ok? ==> r.value.0 != []
  {
    var (layers, out) :- r;
    Ok((MakeLayerStack(layers), out))
  }

  lemma NestOver<S>(l: Layer<S>, above: seq<Layer<S>>)
    requires above != []
    ensures MakeLayerStack([l] + above) == Over(l, MakeLayerStack(above))
  {
    assert ([l] + above)[1..] == above;
  }

  lemma ThenTwice<X>(a: seq<Event>, b: seq<Event>, r: Out<X>)
    ensures Then([], r) == r
    ensures Then(a + b, r) == Then(a, Then(b, r))
  {
    if r.Ok? {
      assert [] + r.value.1 == r.value.1;
      assert a + b + r.value.1 == a + (b + r.value.1);
    }
  }

  /** A list of layers is its first layer, below all the others, on the way up and on the way down. */
  lemma UpAndDownOver<S>(layers: seq<Layer<S>>, events: seq<Event>)
    requires |layers| >= 2
    ensures UpAndDown(layers, events) ==
      var r := LayerIn(layers[0], events);
      if r.Err? then Err(r.error)
      else
        var u := FlatIn(layers[1..], r.value.1);
        if u.Err? then Err(u.error)
        else
          var o := LayerOut(r.value.0, u.value.1);
          if o.Err? then Err(o.error) else Ok(([o.value.0] + u.value.0, o.value.1))
  {
    var r := LayerIn(layers[0], events);
    if r.Ok? {
      var (l, out) := r.value;
      var given := if |layers| == 2 then out else Only(out, Incoming);
      var own := if |layers| == 2 then [] else Except(out, Incoming);
      var u := Up(layers[1..], given);
      if u.Ok? {
        var (above, raised) := u.value;
        assert ([l] + above)[1..] == above && ([own] + raised)[1..] == raised;
        if Down(above, raised).Ok? {
          assert [] + Down(above, raised).value.1 == Down(above, raised).value.1;
        }
      }
    }
  }

  /** The nested stack is exactly the pass up and down the flat list, for every list of layers. */
  lemma {:induction false} IncomingGoesUp<S>(layers: seq<Layer<S>>, events: seq<Event>)
    requires layers != []
    ensures StackIn(MakeLayerStack(layers), events) == Nest(FlatIn(layers, events))
  {
    if |layers| <= 1 {
    } else {
      var own := Only(events, Incoming);
      UpAndDownOver(layers, own);
      if LayerIn(layers[0], own).Ok? {
        var (l, out) := LayerIn(layers[0], own).value;
        IncomingGoesUp(layers[1..], out);
        var u := FlatIn(layers[1..], out);
        if u.Ok? && LayerOut(l, u.value.1).Ok? {
          NestOver(LayerOut(l, u.value.1).value.0, u.value.0);
        }
      }
    }
  }

  // ----- which handlers an event that was raised meets on its way down -----

  lemma {:induction false} ProcessConcat<S>(h: Handler<S>, d: Direction, s: S, a: seq<Event>, b: seq<Event>)
    ensures Process(h, d, s, a + b) ==
            var r := Process(h, d, s, a); if r.Ok? then Then(r.value.1, Process(h, d, r.value.0, b)) else r
  {
    if a == [] {
      assert a + b == b;
      ThenTwice([], [], Process(h, d, s, b));
    } else {
      assert (a + b)[0] == a[0] && (a + b)[1..] == a[1..] + b;
      if a[0].direction != d {
        ProcessConcat(h, d, s, a[1..], b);
        ThenThen([a[0]], Process(h, d, s, a[1..]), h, d, b);
      } else if h(s, a[0].payload).Ok? {
        var (s1, out) := h(s, a[0].payload).value;
        ProcessConcat(h, d, s1, a[1..], b);
        ThenThen(out, Process(h, d, s1, a[1..]), h, d, b);
      }
    }
  }

  lemma ThenThen<S>(front: seq<Event>, r: Out<S>, h: Handler<S>, d: Direction, b: seq<Event>)
    ensures r.Ok? ==> Then(front, Then(r.value.1, Process(h, d, r.value.0, b))) ==
                      Then(Then(front, r).value.1, Process(h, d, r.value.0, b))
  {
    if r.Ok? && Process(h, d, r.value.0, b).Ok? {
      Associate(front, r.value.1, Process(h, d, r.value.0, b).value.1);
    }
  }

  lemma LayerOutConcat<S>(l: Layer<S>, a: seq<Event>, b: seq<Event>)
    ensures LayerOut(l, a + b) ==
            var r := LayerOut(l, a); if r.Ok? then Then(r.value.1, LayerOut(r.value.0, b)) else r
  {
    ProcessConcat(l.outgoing, Outgoing, l.state, a, b);
  }

  /** Events go down through the layers from the one before `n` to the lowest; the others stay as they are. */
  function SendFrom<S>(layers: seq<Layer<S>>, n: nat, events: seq<Event>): (r: Out<seq<Layer<S>>>)
    requires n <= |layers|
    ensures r.Ok? ==> |r.value.0| == |layers| && r.value.0[n..] == layers[n..]
    decreases n
  {
    if n == 0 then Ok((layers, events))
    else
      var (l, out) :- LayerOut(layers[n - 1], events);
      SendFrom(layers[n - 1 := l], n - 1, out)
  }

  /** The handlers that what layer `i` raised goes through: its own and those below, but not the top layer's own. */
  function Reach(i: nat, n: nat): nat {
    if i + 1 < n then i + 1 else i
  }

  /** What the layers from `i` on raised goes down one layer after the other, each through its reach alone. */
  function InTurn<S>(layers: seq<Layer<S>>, raised: seq<seq<Event>>, i: nat): (r: Out<seq<Layer<S>>>)
    requires |raised| == |layers| && i <= |raised|
    ensures r.Ok? ==> |r.value.0| == |layers|
    decreases |raised| - i
  {
    if i == |raised| then Ok((layers, []))
    else
      var (layers', out) :- SendFrom(layers, Reach(i, |layers|), raised[i]);
      Then(out, InTurn(layers', raised, i + 1))
  }

  /** The same layers and events, or a failure of both. */
  ghost predicate SameIfOk<X>(x: Out<X>, y: Out<X>) {
    (x.Ok? <==> y.Ok?) && (x.Ok? ==> x == y)
  }

  /** Below the layers given, one more. */
  function Below<S>(l: Layer<S>, r: Out<seq<Layer<S>>>): (o: Out<seq<Layer<S>>>)
    ensures o.Ok? ==> r.Ok? && |o.value.0| == |r.value.0| + 1
  {
    var (above, out) :- r;
    var (l', out') :- LayerOut(l, out);
    Ok(([l'] + above, out'))
  }

  lemma {:induction false} SendFromOver<S>(l: Layer<S>, above: seq<Layer<S>>, n: nat, events: seq<Event>)
    requires n <= |above|
    ensures SendFrom([l] + above, n + 1, events) == Below(l, SendFrom(above, n, events))
    decreases n
  {
    var layers := [l] + above;
    if n == 0 {
      var r := LayerOut(l, events);
      assert layers[0] == l;
      if r.Ok? {
        assert layers[0 := r.value.0] == [r.value.0] + above;
      }
    } else {
      assert layers[n] == above[n - 1];
      var r := LayerOut(above[n - 1], events);
      if r.Ok? {
        assert layers[n := r.value.0] == [l] + above[n - 1 := r.value.0];
        SendFromOver(l, above[n - 1 := r.value.0], n - 1, r.value.1);
      }
    }
  }

  lemma BelowThen<S>(l: Layer<S>, above: seq<Layer<S>>, front: seq<Event>, r: Out<seq<Layer<S>>>)
    ensures SameIfOk(
      Below(l, Then(front, r)),
      var f := LayerOut(l, front); if f.Ok? then Then(f.value.1, Below(f.value.0, r)) else Err(f.error))
  {
    if r.Ok? {
      LayerOutConcat(l, front, r.value.1);
    }
  }

  lemma InTurnFirst<S>(layers: seq<Layer<S>>, raised: seq<seq<Event>>, i: nat, next: seq<Layer<S>>, out: seq<Event>)
    requires |raised| == |layers| && i < |raised|
    requires SendFrom(layers, Reach(i, |layers|), raised[i]) == Ok((next, out))
    ensures InTurn(layers, raised, i) == Then(out, InTurn(next, raised, i + 1))
  {}

  lemma InTurnStep<S>(l: Layer<S>, above: seq<Layer<S>>, own: seq<Event>, raised: seq<seq<Event>>, i: nat,
                      l1: Layer<S>, above1: seq<Layer<S>>, out: seq<Event>, out1: seq<Event>)
    requires |raised| == |above| == |above1| && i < |raised|
    requires SendFrom(above, Reach(i, |above|), raised[i]) == Ok((above1, out)) && LayerOut(l, out) == Ok((l1, out1))
    requires SameIfOk(InTurn([l1] + above1, [own] + raised, i + 2), Below(l1, InTurn(above1, raised, i + 1)))
    ensures SameIfOk(InTurn([l] + above, [own] + raised, i + 1), Below(l, InTurn(above, raised, i)))
  {
    SendFromOver(l, above, Reach(i, |above|), raised[i]);
    assert ([own] + raised)[i + 1] == raised[i];
    InTurnFirst(above, raised, i, above1, out);
    InTurnFirst([l] + above, [own] + raised, i + 1, [l1] + above1, out1);
    BelowThen(l, above1, out, InTurn(above1, raised, i + 1));
  }

  /** If what layer i raised fails on its way down, both fail. */
  lemma InTurnStops<S>(l: Layer<S>, above: seq<Layer<S>>, own: seq<Event>, raised: seq<seq<Event>>, i: nat)
    requires |raised| == |above| && i < |raised|
    requires Below(l, SendFrom(above, Reach(i, |above|), raised[i])).Err?
    ensures InTurn([l] + above, [own] + raised, i + 1).Err? && Below(l, InTurn(above, raised, i)).Err?
  {
    SendFromOver(l, above, Reach(i, |above|), raised[i]);
    assert ([own] + raised)[i + 1] == raised[i];
    var r := SendFrom(above, Reach(i, |above|), raised[i]);
    if r.Ok? {
      var (above', out) := r.value;
      InTurnFirst(above, raised, i, above', out);
      BelowThen(l, above', out, InTurn(above', raised, i + 1));
    }
  }

  lemma {:induction false} InTurnOver<S>(l: Layer<S>, above: seq<Layer<S>>, own: seq<Event>, raised: seq<seq<Event>>,
                                         i: nat)
    requires above != [] && |raised| == |above| && i <= |raised|
    ensures SameIfOk(InTurn([l] + above, [own] + raised, i + 1), Below(l, InTurn(above, raised, i)))
    decreases |raised| - i
  {
    if i == |raised| {
      NothingToDo(l.outgoing, Outgoing, l.state, []);
    } else if Below(l, SendFrom(above, Reach(i, |above|), raised[i])).Err? {
      InTurnStops(l, above, own, raised, i);
    } else {
      var (above', out) := SendFrom(above, Reach(i, |above|), raised[i]).value;
      var (l', out') := LayerOut(l, out).value;
      InTurnOver(l', above', own, raised, i + 1);
      InTurnStep(l, above, own, raised, i, l', above', out, out');
    }
  }

  lemma DownOver<S>(l: Layer<S>, above: seq<Layer<S>>, own: seq<Event>, raised: seq<seq<Event>>)
    requires above != [] && |raised| == |above|
    ensures Down([l] + above, [own] + raised) == Below(l, Then(own, Down(above, raised)))
  {
    assert ([l] + above)[1..] == above && ([own] + raised)[1..] == raised;
  }

  /** The pass down is the same as sending down what each layer raised, one layer after the other. */
  lemma {:induction false} DownInTurn<S>(layers: seq<Layer<S>>, raised: seq<seq<Event>>)
    requires layers != [] && |layers| == |raised|
    ensures SameIfOk(Down(layers, raised), InTurn(layers, raised, 0))
  {
    if |layers| == 1 {
      assert raised[0] + [] == raised[0];
    } else {
      var l, above := layers[0], layers[1..];
      assert layers == [l] + above && raised == [raised[0]] + raised[1..];
      DownInTurn(above, raised[1..]);
      DownOver(l, above, raised[0], raised[1..]);
      BelowThen(l, above, raised[0], Down(above, raised[1..]));
      assert SendFrom(layers, 1, raised[0]) == Below(l, Ok((above, raised[0]))) by {
        SendFromOver(l, above, 0, raised[0]);
      }
      var f := LayerOut(l, raised[0]);
      if f.Ok? {
        InTurnOver(f.value.0, above, raised[0], raised[1..], 0);
      }
    }
  }

  /** All events given to the layers, with what they raise sent down one layer after the other. */
  function FlatInTurn<S>(layers: seq<Layer<S>>, events: seq<Event>): (r: Out<seq<Layer<S>>>)
    requires layers != []
    ensures r.Ok? ==> |r.value.0| == |layers|
  {
    var (up, raised) :- Up(layers, if |layers| == 1 then events else Only(events, Incoming));
    Then(if |layers| == 1 then [] else Except(events, Incoming), InTurn(up, raised, 0))
  }

  /**
    For every list of layers: what layer i raises on the way up, replies included, goes through the
    outgoing handlers of the layers i, i - 1, ..., 0 and through none above, except that the top
    layer's own events start at the one below it.  Nothing else happens to it.
   */
  lemma RepliesGoDown<S>(layers: seq<Layer<S>>, events: seq<Event>)
    requires layers != []
    ensures SameIfOk(StackIn(MakeLayerStack(layers), events), Nest(FlatInTurn(layers, events)))
  {
    IncomingGoesUp(layers, events);
    var up := Up(layers, if |layers| == 1 then events else Only(events, Incoming));
    if up.Ok? {
      DownInTurn(up.value.0, up.value.1);
      ThenTwice([], [], InTurn(up.value.0, up.value.1, 0));
    }
  }

  // ----- if only the top layer replies -----

  /** All layers but the top one answer incoming events with incoming and state events only. */
  ghost predicate Ascends<S(!new)>(layers: seq<Layer<S>>) {
    forall i :: 0 <= i < |layers| - 1 ==> Never(layers[i].incoming, Outgoing)
  }

  function Concat(lists: seq<seq<Event>>): seq<Event> {
    if lists == [] then [] else lists[0] + Concat(lists[1..])
  }

  lemma ExceptNone(events: seq<Event>, d: Direction, none: Direction)
    requires None(events, none)
    ensures None(Except(events, d), none) && None(Only(events, d), none)
  {
    OnlySubset(events, d);
  }

  lemma {:induction false} OnlySubset(events: seq<Event>, d: Direction)
    ensures forall e :: e in Only(events, d) || e in Except(events, d) ==> e in events
  {
    if events == [] {
    } else {
      OnlySubset(events[1..], d);
    }
  }

  lemma {:induction false} BelowIdle<S>(l: Layer<S>, front: seq<Event>, r: Out<seq<Layer<S>>>)
    requires None(front, Outgoing)
    ensures Below(l, Then(front, r)) == Then(front, Below(l, r))
  {
    if r.Err? {
    } else {
      LayerOutConcat(l, front, r.value.1);
      NothingToDo(l.outgoing, Outgoing, l.state, front);
    }
  }

  lemma StateStep<S>(l: Layer<S>, above: seq<Layer<S>>, own: seq<Event>, raised: seq<seq<Event>>)
    requires above != [] && |raised| == |above| && None(own + Concat(raised[..|above| - 1]), Outgoing)
    requires var last := |above| - 1;
      Down(above, raised) == Then(Concat(raised[..last]), SendFrom(above, last, raised[last]))
    ensures var up, all, last := [l] + above, [own] + raised, |above|;
      Down(up, all) == Then(Concat(all[..last]), SendFrom(up, last, all[last]))
  {
    var last := |above| - 1;
    var front, sent := Concat(raised[..last]), SendFrom(above, last, raised[last]);
    SendFromOver(l, above, last, raised[last]);
    DownOver(l, above, own, raised);
    ThenTwice(own, front, sent);
    BelowIdle(l, own + front, sent);
    ConcatOver(own, raised, last);
  }

  lemma ConcatOver(own: seq<Event>, raised: seq<seq<Event>>, n: nat)
    requires n < |raised|
    ensures Concat(([own] + raised)[..n + 1]) == own + Concat(raised[..n])
    ensures ([own] + raised)[n + 1] == raised[n]
  {
    assert ([own] + raised)[..n + 1] == [own] + raised[..n];
  }

  lemma {:induction false} StateStaysInFront<S(!new)>(layers: seq<Layer<S>>, events: seq<Event>)
    requires layers != [] && Ascends(layers) && None(events, Outgoing) && Up(layers, events).Ok?
    ensures var u, last := Up(layers, events).value, |layers| - 1;
      && None(Concat(u.1[..last]), Outgoing)
      && Down(u.0, u.1) == Then(Concat(u.1[..last]), SendFrom(u.0, last, u.1[last]))
  {
    if |layers| == 1 {
      var (up, raised) := Up(layers, events).value;
      ThenTwice([], [], SendFrom(up, 0, raised[0]));
    } else {
      var (l, out) := LayerIn(layers[0], events).value;
      var given := if |layers| == 2 then out else Only(out, Incoming);
      var own := if |layers| == 2 then [] else Except(out, Incoming);
      StaysNone(layers[0].incoming, Incoming, layers[0].state, events, Outgoing);
      ExceptNone(out, Incoming, Outgoing);
      StateStaysInFront(layers[1..], given);
      var (above, raised) := Up(layers[1..], given).value;
      ConcatOver(own, raised, |above| - 1);
      StateStep(l, above, own, raised);
    }
  }

  lemma StateThenReplies<S(!new)>(layers: seq<Layer<S>>, events: seq<Event>)
    requires layers != [] && Ascends(layers) && None(events, Outgoing)
    ensures var u, last := Up(layers, events), |layers| - 1;
      UpAndDown(layers, events) ==
        if u.Err? then Err(u.error)
        else Then(Concat(u.value.1[..last]), SendFrom(u.value.0, last, u.value.1[last]))
  {
    if Up(layers, events).Ok? {
      StateStaysInFront(layers, events);
    }
  }

  /**
    If no layer below the top replies, the state events raised on the way up come out in front, lowest
    layer first, and then the top layer's events as they come down through all layers below.
   */
  lemma OnlyTopReplies<S(!new)>(layers: seq<Layer<S>>, events: seq<Event>)
    requires |layers| >= 2 && Ascends(layers) && None(events, Outgoing)
    ensures var u := Up(layers, Only(events, Incoming));
      var last := |layers| - 1;
      StackIn(MakeLayerStack(layers), events) ==
        if u.Err? then Err(u.error)
        else Nest(Then(Except(events, Incoming) + Concat(u.value.1[..last]),
                       SendFrom(u.value.0, last, u.value.1[last])))
  {
    var own, last := Only(events, Incoming), |layers| - 1;
    IncomingGoesUp(layers, events);
    ExceptNone(events, Incoming, Outgoing);
    StateThenReplies(layers, own);
    var u := Up(layers, own);
    if u.Ok? {
      var (up, raised) := u.value;
      ThenTwice(Except(events, Incoming), Concat(raised[..last]), SendFrom(up, last, raised[last]));
    }
  }

  // ----- the flat list of layers: outgoing events go down, and what is raised goes back up -----

  /**
    From the top layer down: what comes from above goes through a layer's outgoing handler, and of what
    that returns, the incoming events go up and down through the layers above it again.
   */
  function SendDown<S>(layers: seq<Layer<S>>, events: seq<Event>): (r: Out<seq<Layer<S>>>)
    requires layers != []
    ensures r.Ok? ==> |r.value.0| == |layers|
  {
    if |layers| == 1 then
      var (l, out) :- LayerOut(layers[0], events);
      Ok(([l], out))
    else
      var (above, e) :- SendDown(layers[1..], events);
      var (l, out) :- LayerOut(layers[0], e);
      var (above', out') :- FlatIn(above, out);
      Ok(([l] + above', out'))
  }

  function FlatOut<S>(layers: seq<Layer<S>>, events: seq<Event>): (r: Out<seq<Layer<S>>>)
    requires layers != []
    ensures r.Ok? ==> |r.value.0| == |layers|
  {
    if |layers| == 1 then SendDown(layers, events)
    else Then(Except(events, Outgoing), SendDown(layers, Only(events, Outgoing)))
  }

  /** The nested stack sends exactly as the flat list does, for every list of layers. */
  lemma {:induction false} OutgoingGoesDown<S>(layers: seq<Layer<S>>, events: seq<Event>)
    requires layers != []
    ensures StackOut(MakeLayerStack(layers), events) == Nest(FlatOut(layers, events))
  {
    if |layers| <= 1 {
    } else {
      var own := Only(events, Outgoing);
      OnlyTwice(events, Outgoing);
      OutgoingGoesDown(layers[1..], own);
      ThenTwice([], [], SendDown(layers[1..], own));
      var sent := SendDown(layers[1..], own);
      if sent.Ok? && LayerOut(layers[0], sent.value.1).Ok? {
        var (l, out) := LayerOut(layers[0], sent.value.1).value;
        IncomingGoesUp(sent.value.0, out);
        if FlatIn(sent.value.0, out).Ok? {
          NestOver(l, FlatIn(sent.value.0, out).value.0);
        }
      }
    }
  }

  /** No layer answers an outgoing event with an incoming one. */
  ghost predicate Descends<S(!new)>(layers: seq<Layer<S>>) {
    forall i :: 0 <= i < |layers| ==> Never(layers[i].outgoing, Incoming)
  }

  lemma {:induction false} FlatNothing<S>(layers: seq<Layer<S>>, events: seq<Event>)
    requires layers != [] && None(events, Incoming)
    ensures FlatIn(layers, events) == Ok((layers, events))
  {
    if |layers| == 1 {
      NothingToDo(layers[0].incoming, Incoming, layers[0].state, events);
      assert [layers[0]] == layers;
    } else {
      OnlyOfNone(events, Incoming);
      FlatNothing(layers[1..], []);
      UpAndDownOver(layers, []);
      assert layers == [layers[0]] + layers[1..] && events + [] == events;
    }
  }

  lemma {:induction false} StraightDown<S(!new)>(layers: seq<Layer<S>>, events: seq<Event>)
    requires layers != [] && Descends(layers) && None(events, Incoming)
    ensures SendDown(layers, events) == SendFrom(layers, |layers|, events)
    ensures SendDown(layers, events).Ok? ==> None(SendDown(layers, events).value.1, Incoming)
  {
    var l, above := layers[0], layers[1..];
    assert layers == [l] + above;
    SendFromOver(l, above, |above|, events);
    if above == [] {
      if LayerOut(l, events).Ok? {
        StaysNone(l.outgoing, Outgoing, l.state, events, Incoming);
        assert [LayerOut(l, events).value.0] + above == [LayerOut(l, events).value.0];
      }
    } else {
      StraightDown(above, events);
      var sent := SendDown(above, events);
      if sent.Ok? && LayerOut(l, sent.value.1).Ok? {
        StaysNone(l.outgoing, Outgoing, l.state, sent.value.1, Incoming);
        FlatNothing(sent.value.0, LayerOut(l, sent.value.1).value.1);
      }
    }
  }

  /** If no layer answers an outgoing event with an incoming one, the stack sends straight down. */
  lemma OutgoingGoesStraightDown<S(!new)>(layers: seq<Layer<S>>, events: seq<Event>)
    requires layers != [] && Descends(layers) && All(events, Outgoing)
    ensures StackOut(MakeLayerStack(layers), events) == Nest(SendFrom(layers, |layers|, events))
  {
    OutgoingGoesDown(layers, events);
    OnlyOfAll(events, Outgoing);
    StraightDown(layers, events);
    ThenTwice([], [], SendDown(layers, events));
  }
}
