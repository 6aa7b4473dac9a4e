/** The public surface of `LiteNetLibFunction`: the `Call` and
    `CallWithoutParametersSet` overloads, `SendCall`, and the actions a call
    performs on the transport and on the local callback. */
module Calls {
  import opened Wrappers
  import opened Net
  import opened ParameterCodec
  import opened RemoteFunction
  import opened Envelope
  import opened Routing

  /** Everything a call reads besides the function itself: the network view,
      the wire format, the element's own `ConnectionId`, and the outcome of
      `ValidateBeforeAccess()`. */
  datatype Context = Context(net: Network, wire: Wire, connectionId: Long, valid: bool)

  /** What a call does to the outside world. Every send carries the
      `CallFunction` message type. */
  datatype Action =
    | ServerSend(connectionId: Long, delivery: DeliveryMethod, payload: seq<byte>)
    | ClientSend(delivery: DeliveryMethod, payload: seq<byte>)
    | LocalInvoke(args: seq<Slot>)

  /** The actions performed in order, and the serialization error that
      stopped the call, if one did. */
  datatype Outcome = Outcome(performed: seq<Action>, raised: Option<CodecError>)

  /** The routing step an action carries out. */
  function Kind(a: Action): Step {
    match a
    case ServerSend(c, _, _) => SendTo(c)
    case ClientSend(_, _) => SendToServer
    case LocalInvoke(_) => InvokeLocally
  }

  function Kinds(actions: seq<Action>): (r: seq<Step>)
    ensures |r| == |actions|
    ensures forall i :: 0 <= i < |actions| ==> r[i] == Kind(actions[i])
  {
    seq(|actions|, i requires 0 <= i < |actions| => Kind(actions[i]))
  }

  /** `ServerSendCall`: a server send of the bare envelope; the receivers and
      target it is handed are not written. */
  function ServerSendCall(w: Wire, f: Function, connectionId: Long, delivery: DeliveryMethod,
                          receivers: Receivers, targetConnectionId: Long): (r: Result<Action, CodecError>)
    requires f.WellFormed()
    ensures r.Success? <==> SerializeForSend(w, f).Success?
    ensures r.Success? ==> Kind(r.value) == SendTo(connectionId) && r.value.delivery == delivery
  {
    var payload :- SerializeForSend(w, f);
    Success(ServerSend(connectionId, delivery, payload))
  }

  /** `ClientSendCall`: a send to the server of the envelope with the routing header. */
  function ClientSendCall(w: Wire, f: Function, delivery: DeliveryMethod,
                          receivers: Receivers, targetConnectionId: Long): (r: Result<Action, CodecError>)
    requires f.WellFormed()
    ensures r.Success? <==> SerializeForSend(w, f).Success?
    ensures r.Success? ==> Kind(r.value) == SendToServer && r.value.delivery == delivery
  {
    var payload :- SerializeForClient(w, f, receivers, targetConnectionId);
    Success(ClientSend(delivery, payload))
  }

  /** `HookCallback`: the callback runs on the current slot values. */
  function HookCallback(f: Function): (a: Action)
    ensures Kind(a) == InvokeLocally
  {
    LocalInvoke(f.parameters)
  }

  function StepAction(w: Wire, f: Function, step: Step, delivery: DeliveryMethod,
                      receivers: Receivers, targetConnectionId: Long): (r: Result<Action, CodecError>)
    requires f.WellFormed()
    ensures r.Success? ==> Kind(r.value) == step && Carries(w, f, delivery, receivers, targetConnectionId, r.value)
    ensures r.Failure? ==> !step.InvokeLocally? && SerializeForSend(w, f).Failure?
  {
    match step
    case SendTo(c) => ServerSendCall(w, f, c, delivery, receivers, targetConnectionId)
    case SendToServer => ClientSendCall(w, f, delivery, receivers, targetConnectionId)
    case InvokeLocally => Success(HookCallback(f))
  }

  /** Carries out the steps in order. Serialization runs inside each send,
      so a serialization error raises out of that send and the steps after
      it never happen. */
  function Perform(w: Wire, f: Function, steps: seq<Step>, delivery: DeliveryMethod,
                   receivers: Receivers, targetConnectionId: Long): (o: Outcome)
    requires f.WellFormed()
    ensures |o.performed| <= |steps|
    ensures forall i :: 0 <= i < |o.performed| ==> Kind(o.performed[i]) == steps[i]
    ensures forall i :: 0 <= i < |o.performed| ==> Carries(w, f, delivery, receivers, targetConnectionId, o.performed[i])
    ensures o.raised.None? <==> |o.performed| == |steps|
    ensures o.raised.Some? ==>
      && !steps[|o.performed|].InvokeLocally?
      && SerializeForSend(w, f).Failure?
      && o.raised.value == SerializeForSend(w, f).error
    decreases |steps|
  {
    if |steps| == 0 then Outcome([], None)
    else
      match StepAction(w, f, steps[0], delivery, receivers, targetConnectionId)
      case Failure(e) => Outcome([], Some(e))
      case Success(a) =>
        var rest := Perform(w, f, steps[1..], delivery, receivers, targetConnectionId);
        Outcome([a] + rest.performed, rest.raised)
  }

  /** What each kind of action carries: a server send the bare envelope, a
      client send the envelope with the routing header, the callback the
      current slots; every send with the requested delivery method. */
  predicate Carries(w: Wire, f: Function, delivery: DeliveryMethod, receivers: Receivers,
                    targetConnectionId: Long, a: Action)
    requires f.WellFormed()
  {
    match a
    case ServerSend(_, d, payload) =>
      d == delivery && SerializeForSend(w, f) == Success(payload)
    case ClientSend(d, payload) =>
      d == delivery && SerializeForClient(w, f, receivers, targetConnectionId) == Success(payload)
    case LocalInvoke(args) =>
      args == f.parameters
  }

  /** A route whose callback is at most one step and the last one starts
      with the callback only when that is its only step; so when it holds a
      send at all, its first step is a send. */
  lemma SoleInvokeIsLast(steps: seq<Step>)
    requires multiset(steps)[InvokeLocally] <= 1
    requires InvokeLocally in steps ==> steps[|steps| - 1] == InvokeLocally
    ensures |steps| > 0 && steps[0] == InvokeLocally ==> |steps| == 1
    ensures (exists i :: 0 <= i < |steps| && !steps[i].InvokeLocally?) ==> !steps[0].InvokeLocally?
  {
    if |steps| > 1 {
      assert steps == [steps[0]] + steps[1..];
      assert steps[|steps| - 1] in steps[1..];
    }
  }

  /** `SendCall`: route, then carry out the route. When the parameters
      serialize, the call carries out its route exactly: one action per
      step, in route order, each carrying its envelope or the current slots.
      When they do not, the call raises exactly when its route contains a
      send, and then it has done nothing at all: every send precedes the
      callback, so the first step is the failing send. Without a send the
      route runs to completion. */
  function SendCall(ctx: Context, f: Function, delivery: DeliveryMethod,
                    receivers: Receivers, targetConnectionId: Long): (o: Outcome)
    requires f.WellFormed()
    ensures SerializeForSend(ctx.wire, f).Success? ==>
      && o.raised.None?
      && Kinds(o.performed) == Route(ctx.net, receivers, targetConnectionId)
      && forall i :: 0 <= i < |o.performed| ==> Carries(ctx.wire, f, delivery, receivers, targetConnectionId, o.performed[i])
    ensures SerializeForSend(ctx.wire, f).Failure? ==>
      var steps := Route(ctx.net, receivers, targetConnectionId);
      && (o.raised.Some? <==> exists i :: 0 <= i < |steps| && !steps[i].InvokeLocally?)
      && (o.raised.Some? ==> o.performed == [] && o.raised.value == SerializeForSend(ctx.wire, f).error)
  {
    var steps := Route(ctx.net, receivers, targetConnectionId);
    RouteInvariants(ctx.net, receivers, targetConnectionId);
    SoleInvokeIsLast(steps);
    Perform(ctx.wire, f, steps, delivery, receivers, targetConnectionId)
  }

  /** The server envelope carries no routing header: what `ServerSendCall`
      sends does not depend on the receivers or target it is handed. */
  lemma ServerEnvelopeIgnoresRouting(w: Wire, f: Function, connectionId: Long, delivery: DeliveryMethod,
                                     r1: Receivers, t1: Long, r2: Receivers, t2: Long)
    requires f.WellFormed()
    ensures ServerSendCall(w, f, connectionId, delivery, r1, t1) == ServerSendCall(w, f, connectionId, delivery, r2, t2)
  {
  }

  /** End to end on the server side: every server send of a call carries
      the element info followed by parameter bytes from which a receiver,
      whatever its slots held, reads back exactly the caller's slots. */
  lemma ServerSendDelivers(ctx: Context, f: Function, delivery: DeliveryMethod, receivers: Receivers,
                           targetConnectionId: Long, i: nat, before: seq<Slot>)
    requires f.WellFormed() && RoundTrips(ctx.wire.codec) && |before| == |f.parameters|
    requires i < |SendCall(ctx, f, delivery, receivers, targetConnectionId).performed|
    requires SendCall(ctx, f, delivery, receivers, targetConnectionId).performed[i].ServerSend?
    ensures var payload := SendCall(ctx, f, delivery, receivers, targetConnectionId).performed[i].payload;
      && |ctx.wire.info| <= |payload|
      && payload[..|ctx.wire.info|] == ctx.wire.info
      && DeserializeParameters(ctx.wire.codec, f.parameterTypes, before, payload[|ctx.wire.info|..])
         == ReadResult(f.parameters, [], None)
  {
    var a := SendCall(ctx, f, delivery, receivers, targetConnectionId).performed[i];
    assert Carries(ctx.wire, f, delivery, receivers, targetConnectionId, a);
    var bytes := SerializeParameters(ctx.wire.codec, f.parameterTypes, f.parameters).value;
    ParametersRoundTrip(ctx.wire.codec, f.parameterTypes, f.parameters, before, []);
    assert bytes + [] == bytes;
  }

  /** End to end on the client side: the send to the server carries the
      receivers, the target id exactly when the receivers are `Target`, and
      then the element info followed by parameter bytes that read back as
      the caller's slots. */
  lemma ClientSendDelivers(ctx: Context, f: Function, delivery: DeliveryMethod, receivers: Receivers,
                           targetConnectionId: Long, i: nat, before: seq<Slot>)
    requires f.WellFormed() && RoundTrips(ctx.wire.codec) && PackedRoundTrips(ctx.wire)
    requires |before| == |f.parameters|
    requires i < |SendCall(ctx, f, delivery, receivers, targetConnectionId).performed|
    requires SendCall(ctx, f, delivery, receivers, targetConnectionId).performed[i].ClientSend?
    ensures var payload := SendCall(ctx, f, delivery, receivers, targetConnectionId).performed[i].payload;
      var header := ReadClientHeader(ctx.wire, payload);
      && header.Some?
      && header.value.0 == receivers
      && header.value.1 == (if receivers == Target then Some(targetConnectionId) else None)
      && |ctx.wire.info| <= |header.value.2|
      && header.value.2[..|ctx.wire.info|] == ctx.wire.info
      && DeserializeParameters(ctx.wire.codec, f.parameterTypes, before, header.value.2[|ctx.wire.info|..])
         == ReadResult(f.parameters, [], None)
  {
    var a := SendCall(ctx, f, delivery, receivers, targetConnectionId).performed[i];
    assert Carries(ctx.wire, f, delivery, receivers, targetConnectionId, a);
    ClientEnvelopeRoundTrip(ctx.wire, f, receivers, targetConnectionId);
    var bytes := SerializeParameters(ctx.wire.codec, f.parameterTypes, f.parameters).value;
    ParametersRoundTrip(ctx.wire.codec, f.parameterTypes, f.parameters, before, []);
    assert bytes + [] == bytes;
  }

  lemma RouteTwoPeers(net: Network, a: Long, b: Long, targetConnectionId: Long)
    requires net.isServer && net.connectionIds == [a, b]
    requires net.isSubscribedOrOwning(a) && net.isSubscribedOrOwning(b)
    ensures Route(net, All, targetConnectionId) == [SendTo(a), SendTo(b)] + AfterBroadcast(net)
  {
    var ids := net.connectionIds;
    var auth := net.isSubscribedOrOwning;
    assert ids[1..] == [b] && ids[1..][1..] == [];
    assert Broadcast([b], auth) == [SendTo(b)] + Broadcast([], auth);
    assert Broadcast(ids, auth) == [SendTo(a)] + Broadcast([b], auth);
  }

  /** A broadcast from a server with two authorized peers: one send to each,
      in enumeration order, and the callback as well when no client is
      connected locally, even though peers exist. */
  lemma BroadcastToTwoPeers(ctx: Context, f: Function, delivery: DeliveryMethod, a: Long, b: Long, targetConnectionId: Long)
    requires f.WellFormed()
    requires ctx.net.isServer && ctx.net.connectionIds == [a, b]
    requires ctx.net.isSubscribedOrOwning(a) && ctx.net.isSubscribedOrOwning(b)
    requires SerializeForSend(ctx.wire, f).Success?
    ensures var payload := SerializeForSend(ctx.wire, f).value;
      SendCall(ctx, f, delivery, All, targetConnectionId)
      == Outcome([ServerSend(a, delivery, payload), ServerSend(b, delivery, payload)]
                 + (if ctx.net.isClientConnected then [] else [LocalInvoke(f.parameters)]), None)
  {
    var steps := Route(ctx.net, All, targetConnectionId);
    RouteTwoPeers(ctx.net, a, b, targetConnectionId);
    var payload := SerializeForSend(ctx.wire, f).value;
    var expected := [ServerSend(a, delivery, payload), ServerSend(b, delivery, payload)]
                    + (if ctx.net.isClientConnected then [] else [LocalInvoke(f.parameters)]);
    var o := SendCall(ctx, f, delivery, All, targetConnectionId);
    assert |o.performed| == |expected|;
    forall k | 0 <= k < |expected|
      ensures o.performed[k] == expected[k]
    {
      assert Kinds(o.performed)[k] == steps[k];
      assert Carries(ctx.wire, f, delivery, All, targetConnectionId, o.performed[k]);
    }
    assert o.performed == expected;
  }

  /** `Call(deliveryMethod, receivers, params values)`: on a live target, set
      the parameters and route to the element's own connection id; on a
      stale one, nothing at all. */
  method Call(ctx: Context, f: Function, delivery: DeliveryMethod, receivers: Receivers, values: seq<Slot>)
    returns (g: Function, o: Outcome)
    requires f.WellFormed()
    ensures g.WellFormed() && g.parameterTypes == f.parameterTypes
    ensures !ctx.valid ==> g == f && o == Outcome([], None)
    ensures ctx.valid ==>
      && CopiesPrefix(f.parameters, values, g.parameters)
      && o == SendCall(ctx, g, delivery, receivers, ctx.connectionId)
  {
    if !ctx.valid {
      return f, Outcome([], None);
    }
    g := SetParameters(f, values);
    o := SendCall(ctx, g, delivery, receivers, ctx.connectionId);
  }

  /** `Call(connectionId, params values)`: like `Call`, but always a
      reliable-ordered `Target` call to the given connection. */
  method CallTo(ctx: Context, f: Function, connectionId: Long, values: seq<Slot>)
    returns (g: Function, o: Outcome)
    requires f.WellFormed()
    ensures g.WellFormed() && g.parameterTypes == f.parameterTypes
    ensures !ctx.valid ==> g == f && o == Outcome([], None)
    ensures ctx.valid ==>
      && CopiesPrefix(f.parameters, values, g.parameters)
      && o == SendCall(ctx, g, ReliableOrdered, Target, connectionId)
  {
    if !ctx.valid {
      return f, Outcome([], None);
    }
    g := SetParameters(f, values);
    o := SendCall(ctx, g, ReliableOrdered, Target, connectionId);
  }

  /** `CallWithoutParametersSet(deliveryMethod, receivers)`: routes the slots
      as they are, to the element's own connection id; never touches them. */
  method CallWithoutParametersSet(ctx: Context, f: Function, delivery: DeliveryMethod, receivers: Receivers)
    returns (g: Function, o: Outcome)
    requires f.WellFormed()
    ensures g == f
    ensures !ctx.valid ==> o == Outcome([], None)
    ensures ctx.valid ==> o == SendCall(ctx, f, delivery, receivers, ctx.connectionId)
  {
    g := f;
    if !ctx.valid {
      return g, Outcome([], None);
    }
    o := SendCall(ctx, f, delivery, receivers, ctx.connectionId);
  }

  /** `CallWithoutParametersSet(connectionId)`: a reliable-ordered `Target`
      call of the slots as they are; never touches them. */
  method CallWithoutParametersSetTo(ctx: Context, f: Function, connectionId: Long)
    returns (g: Function, o: Outcome)
    requires f.WellFormed()
    ensures g == f
    ensures !ctx.valid ==> o == Outcome([], None)
    ensures ctx.valid ==> o == SendCall(ctx, f, ReliableOrdered, Target, connectionId)
  {
    g := f;
    if !ctx.valid {
      return g, Outcome([], None);
    }
    o := SendCall(ctx, f, ReliableOrdered, Target, connectionId);
  }
}
