/** The routing decision of `SendCall`, as a pure function from the network
    role, the receivers and the target id to the ordered list of things the
    call does: a server send to one connection, one send to the server, or
    running the callback here. */
module Routing {
  import opened Net

  /** What `SendCall` reads from the manager and the owning identity.
      `connectionIds` is the enumeration order of `GetConnectionIds()`. */
  datatype Network = Network(
    isServer: bool,
    isClientConnected: bool,
    connectionIds: seq<Long>,
    containsConnectionId: Long -> bool,
    isSubscribedOrOwning: Long -> bool)

  /** One thing a call does: `ServerSendCall` to a connection,
      `ClientSendCall`, or `HookCallback`. */
  datatype Step = SendTo(connectionId: Long) | SendToServer | InvokeLocally

  /** `a` is `b` with some elements left out, the rest in order. */
  predicate IsSubsequence<T(==)>(a: seq<T>, b: seq<T>) {
    |a| == 0 || (|b| > 0 && ((a[0] == b[0] && IsSubsequence(a[1..], b[1..])) || IsSubsequence(a, b[1..])))
  }

  /** The connection ids of the server sends, in the order they happen. */
  function Recipients(steps: seq<Step>): (r: seq<Long>)
    ensures |r| <= |steps|
    ensures forall c :: c in r <==> SendTo(c) in steps
  {
    if |steps| == 0 then []
    else (if steps[0].SendTo? then [steps[0].connectionId] else []) + Recipients(steps[1..])
  }

  /** The `foreach` over `GetConnectionIds()`: a send to each enumerated
      connection that is subscribed to or owns the object. */
  function Broadcast(ids: seq<Long>, authorized: Long -> bool): seq<Step> {
    if |ids| == 0 then []
    else if authorized(ids[0]) then [SendTo(ids[0])] + Broadcast(ids[1..], authorized)
    else Broadcast(ids[1..], authorized)
  }

  /** A broadcast sends to every enumerated authorized connection as often as
      it is enumerated, in enumeration order, and to nothing else. */
  lemma {:induction false} BroadcastSpec(ids: seq<Long>, authorized: Long -> bool)
    ensures var steps := Broadcast(ids, authorized);
      && (forall c :: multiset(steps)[SendTo(c)] == if authorized(c) then multiset(ids)[c] else 0)
      && (forall s :: s in steps ==> s.SendTo? && authorized(s.connectionId) && s.connectionId in ids)
      && IsSubsequence(Recipients(steps), ids)
  {
    if |ids| > 0 {
      assert ids == [ids[0]] + ids[1..];
      BroadcastSpec(ids[1..], authorized);
      var tail := Broadcast(ids[1..], authorized);
      if authorized(ids[0]) {
        assert Recipients([SendTo(ids[0])] + tail) == [ids[0]] + Recipients(tail) by {
          assert ([SendTo(ids[0])] + tail)[1..] == tail;
        }
      }
    }
  }

  /** How many sends a broadcast makes to connection `c`: one per time it is
      enumerated, if it is authorized. */
  function SendCount(net: Network, c: Long): nat {
    if net.isSubscribedOrOwning(c) then multiset(net.connectionIds)[c] else 0
  }

  lemma {:induction false} RecipientsAppend(a: seq<Step>, b: seq<Step>)
    requires forall s :: s in b ==> !s.SendTo?
    ensures Recipients(a + b) == Recipients(a)
  {
    if |a| == 0 {
      assert a + b == b;
      RecipientsNone(b);
    } else {
      assert (a + b)[1..] == a[1..] + b;
      RecipientsAppend(a[1..], b);
    }
  }

  lemma {:induction false} RecipientsNone(b: seq<Step>)
    requires forall s :: s in b ==> !s.SendTo?
    ensures Recipients(b) == []
  {
    if |b| > 0 {
      assert b[0] in b;
      RecipientsNone(b[1..]);
    }
  }

  /** What the server does locally after a broadcast: run the callback
      unless a client is connected in this process (a host's own client
      receives the broadcast instead). */
  function AfterBroadcast(net: Network): (hook: seq<Step>)
    ensures forall s :: s in hook ==> s == InvokeLocally
    ensures multiset(hook)[InvokeLocally] == (if net.isClientConnected then 0 else 1)
  {
    if net.isClientConnected then [] else [InvokeLocally]
  }

  /** `SendCall`'s decision table. */
  function Route(net: Network, receivers: Receivers, targetConnectionId: Long): (steps: seq<Step>)
    ensures !net.isServer ==> forall s :: s in steps ==> s == SendToServer
  {
    if net.isServer then
      match receivers
      case Target =>
        if net.isSubscribedOrOwning(targetConnectionId) && net.containsConnectionId(targetConnectionId)
        then [SendTo(targetConnectionId)]
        else []
      case All =>
        Broadcast(net.connectionIds, net.isSubscribedOrOwning) + AfterBroadcast(net)
      case Server =>
        [InvokeLocally]
      case Undefined(_) =>
        []
    else if net.isClientConnected then
      [SendToServer]
    else
      []
  }

  /** The subscribed-or-owning gate holds for every receivers value: a server
      only ever sends to an authorized connection the manager knows about, a
      client sends at most once and only to the server, and the callback runs
      at most once, only on a server, after every send. */
  lemma RouteInvariants(net: Network, receivers: Receivers, targetConnectionId: Long)
    ensures var steps := Route(net, receivers, targetConnectionId);
      && (forall s :: s in steps && s.SendTo? ==>
           && net.isServer
           && net.isSubscribedOrOwning(s.connectionId)
           && (s.connectionId in net.connectionIds || net.containsConnectionId(s.connectionId)))
      && (SendToServer in steps ==> !net.isServer && net.isClientConnected)
      && multiset(steps)[SendToServer] <= 1
      && multiset(steps)[InvokeLocally] <= 1
      && (InvokeLocally in steps ==> net.isServer && steps[|steps| - 1] == InvokeLocally)
  {
    if net.isServer && receivers == All {
      BroadcastSpec(net.connectionIds, net.isSubscribedOrOwning);
      var sends := Broadcast(net.connectionIds, net.isSubscribedOrOwning);
      var hook := AfterBroadcast(net);
      assert InvokeLocally !in sends && SendToServer !in sends;
      assert multiset(sends + hook) == multiset(sends) + multiset(hook);
    }
  }

  /** Server, `Target`: exactly one send, to the target, when the target is
      authorized and live; otherwise nothing at all. */
  lemma RouteServerTarget(net: Network, targetConnectionId: Long)
    requires net.isServer
    ensures var steps := Route(net, Target, targetConnectionId);
      && (forall s :: s in steps ==> s.SendTo?)
      && forall c :: multiset(steps)[SendTo(c)]
           == if c == targetConnectionId && net.isSubscribedOrOwning(c) && net.containsConnectionId(c) then 1 else 0
  {
  }

  /** Server, `All`: one send per enumerated authorized connection, in
      enumeration order, none to anything else, then the callback exactly
      when no client is connected locally. */
  lemma RouteServerAll(net: Network, targetConnectionId: Long)
    requires net.isServer
    ensures var steps := Route(net, All, targetConnectionId);
      && (forall c :: multiset(steps)[SendTo(c)] == SendCount(net, c))
      && IsSubsequence(Recipients(steps), net.connectionIds)
      && multiset(steps)[SendToServer] == 0
      && multiset(steps)[InvokeLocally] == (if net.isClientConnected then 0 else 1)
  {
    BroadcastSpec(net.connectionIds, net.isSubscribedOrOwning);
    var steps := Route(net, All, targetConnectionId);
    var sends := Broadcast(net.connectionIds, net.isSubscribedOrOwning);
    var hook := AfterBroadcast(net);
    assert steps == sends + hook;
    assert multiset(steps) == multiset(sends) + multiset(hook);
    assert forall c :: multiset(steps)[SendTo(c)] == SendCount(net, c) by {
      assert forall c :: multiset(hook)[SendTo(c)] == 0;
    }
    assert IsSubsequence(Recipients(steps), net.connectionIds) by {
      RecipientsAppend(sends, hook);
    }
    assert InvokeLocally !in sends && SendToServer !in sends;
  }

  /** Server, `Server`: the callback runs exactly once and nothing is sent,
      whatever the connections. */
  lemma RouteServerOnly(net: Network, targetConnectionId: Long)
    requires net.isServer
    ensures var steps := Route(net, Server, targetConnectionId);
      && multiset(steps)[InvokeLocally] == 1
      && |steps| == 1
  {
  }

  /** Server, a receivers value the enum does not name: the `switch` has no
      case for it, so nothing is sent and the callback does not run. */
  lemma RouteServerUndefined(net: Network, receivers: Receivers, targetConnectionId: Long)
    requires net.isServer && receivers.Undefined?
    ensures |Route(net, receivers, targetConnectionId)| == 0
  {
  }

  /** Not a server: one send to the server when connected, whatever the
      receivers (`Server` included), and nothing otherwise; never the callback. */
  lemma RouteClient(net: Network, receivers: Receivers, targetConnectionId: Long)
    requires !net.isServer
    ensures var steps := Route(net, receivers, targetConnectionId);
      && multiset(steps)[SendToServer] == (if net.isClientConnected then 1 else 0)
      && |steps| == multiset(steps)[SendToServer]
  {
  }
}
