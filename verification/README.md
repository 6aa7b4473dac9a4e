# LiteNetLibFunction: remote-call routing and marshalling

This project models the core of `LiteNetLibFunction` from LiteNetLibManager. That class is a networked remote function with a fixed, typed parameter list. The model covers four things:

- **Parameter slots.** A function holds one declared type and one value slot per parameter. `SetParameters` copies supplied values into a prefix of the slots. `SerializeParameters` and `DeserializeParameters` walk the slots in order with each slot's declared type and write no length prefixes.
- **Envelopes.** A server sends the element info followed by the parameters. A client adds a routing header in front of that: the receivers tag byte, then the packed target connection id, which is present only for `Target`.
- **Routing (`SendCall`).** The decision depends on the network role and on the `FunctionReceivers` value (`Target`, `All`, `Server`). It decides which connections get a server send, whether one send goes to the server, and whether the callback runs locally. A server only ever sends to a connection that is subscribed to or owns the object.
- **Entry points.** These are the `Call` and `CallWithoutParametersSet` overloads. Each is a silent no-op when `ValidateBeforeAccess()` fails.

Modules:

| file | module | models |
|---|---|---|
| `wrappers.dfy` | `Wrappers` | `Option` / `Result` for nulls and exceptions |
| `net.dfy` | `Net` | bytes, C# `long`/`ulong` casts, `FunctionReceivers`, `DeliveryMethod` |
| `codec.dfy` | `ParameterCodec` | slots, declared types, the per-type value codec, parameter (de)serialization |
| `function.dfy` | `RemoteFunction` | the function record, its constructors, `SetParameters` |
| `envelope.dfy` | `Envelope` | `SerializeForSend`, `SerializeForClient`, reading the client header back |
| `routing.dfy` | `Routing` | `SendCall`'s decision table as a pure function returning steps |
| `calls.dfy` | `Calls` | actions, `ServerSendCall`/`ClientSendCall`/`HookCallback`, `SendCall`, the entry points |

The model is functional. A call takes the function record and a `Context` and returns the updated record together with an `Outcome`. The `Context` holds the network view, the wire format, the element's `ConnectionId` and the result of `ValidateBeforeAccess()`. The `Outcome` lists the actions performed, in order, plus the serialization error that stopped the call, if there was one. There are three kinds of action:

- `ServerSend(connectionId, delivery, payload)`
- `ClientSend(delivery, payload)`
- `LocalInvoke(slots)`

The external collaborators are inputs to the model:

- The value codec (`PutValue`/`GetValue`) and the packed-integer codec (`PutPackedULong`/`GetPackedULong`) are function-valued fields. Their round trips are stated as the predicates `RoundTrips` and `PackedRoundTrips`, and the lemmas that need them take those predicates as preconditions.
- The info bytes are an opaque prefix.
- `IsServer`, `IsClientConnected`, `GetConnectionIds()`, `ContainsConnectionId` and `IsSubscribedOrOwning` are fields of `Network`.

C# nulls are explicit in the model. `new object[n]` gives `Null` slots, and the `LiteNetLibFunction(int)` constructor leaves every declared type as `NoType`.

The writer and reader raise exceptions that nothing in the class catches. The model therefore treats them as follows:
- A failed `PutValue` inside a send propagates out of `SendCall`, and nothing after it runs: no later sends and no callback. `SendCall`'s contract states that, on every route, such a failure happens before anything has been done.
- A failed `GetValue` leaves the slots that were already read overwritten and the remaining slots untouched. After such a failure the reader position is not modelled: `ReadResult.rest` is meaningful only when no read raised.

Behaviour worth noting:
- **Local callback on `All`.** The callback runs whenever `IsClientConnected` is false, whatever the number of live connections. `BroadcastToTwoPeers` shows a dedicated server with two authorized peers that sends to both and also runs the callback.
- **Unnamed receivers values.** `FunctionReceivers` is an enum over `byte`, so any byte can be cast to it. The model writes the bytes 3..255 as `Undefined(tag)`. A server's `switch` has no case for them and does nothing. A client still sends, writing the raw tag byte and no packed id.
- **Failed `PutValue`.** Bytes already written stay in the writer, but the exception aborts the send, so the model records no payload.

## Model

| member | source | states |
|---|---|---|
| Net.ToULong | Scripts/GameApi/LiteNetLibFunction.cs:137 | the `(ulong)` cast keeps non-negative ids and adds 2^64 to negative ones |
| Net.ReceiversTag | Scripts/GameApi/LiteNetLibFunction.cs:8-13 | `(byte)receivers` decodes back to the same receivers value, and is 3 or more exactly for an unnamed value |
| Net.ReceiversFromTag | Scripts/GameApi/LiteNetLibFunction.cs:8-13 | casting a byte to the enum yields an unnamed value exactly for the bytes 3..255 |
| ParameterCodec.SerializeParameters | Scripts/GameApi/LiteNetLibFunction.cs:157-165 | an empty parameter list writes nothing; serialization succeeds iff the writer accepts every slot under its declared type; on failure it names the first refused slot |
| ParameterCodec.SerializeConcatenates | Scripts/GameApi/LiteNetLibFunction.cs:157-165 | the parameter bytes for any prefix/suffix split are the prefix's bytes followed by the suffix's, so the encoding is the per-slot encodings in slot order |
| ParameterCodec.SerializeSingle | Scripts/GameApi/LiteNetLibFunction.cs:161-164 | one parameter is written exactly as the value codec writes it, with no prefix |
| ParameterCodec.DeserializeParameters | Scripts/GameApi/LiteNetLibFunction.cs:147-155 | the slot count never changes; an empty list reads nothing; a failed read leaves the failing slot and every later slot as they were |
| ParameterCodec.DeserializeOverwritesAll | Scripts/GameApi/LiteNetLibFunction.cs:147-155 | a read that completes overwrites every slot: its result does not depend on the slots' previous contents |
| ParameterCodec.ParametersRoundTrip | Scripts/GameApi/LiteNetLibFunction.cs:147-165 | with a round-tripping value codec, reading back the serialized parameters restores all slots and leaves exactly the following bytes unread |
| RemoteFunction.NewEmpty | Scripts/GameApi/LiteNetLibFunction.cs:21-23 | the parameterless constructor builds a well-formed function with no slots |
| RemoteFunction.NewWithCount | Scripts/GameApi/LiteNetLibFunction.cs:25-29 | n null slots and n null declared types, so slot and type counts agree |
| RemoteFunction.NewWithTypes | Scripts/GameApi/LiteNetLibFunction.cs:31-36 | the arity is the length of the given type array, the types are kept, and all slots are null |
| RemoteFunction.NewGeneric | Scripts/GameApi/LiteNetLibFunction.cs:169-342 | for 1 to 10 type arguments, slot i is declared as the i-th type argument and holds null |
| RemoteFunction.SetParameters | Scripts/GameApi/LiteNetLibFunction.cs:89-97 | slot i becomes values[i] for i < min(slots, values); slots at or past the number of values keep their old contents; surplus values are ignored; types and slot count are unchanged |
| Envelope.SerializeForSend | Scripts/GameApi/LiteNetLibFunction.cs:141-145 | the server envelope is the info bytes followed by exactly the parameter bytes, and it fails exactly when the parameters fail |
| Envelope.ClientHeader | Scripts/GameApi/LiteNetLibFunction.cs:135-137 | the header starts with the receivers tag, which reads back as the same receivers, and is that single byte for every receivers value other than `Target` |
| Envelope.ClientHeaderRoundTrip | Scripts/GameApi/LiteNetLibFunction.cs:135-137 | whatever follows a client header, reading the header back recovers the receivers, the target id exactly when the receivers are `Target`, and then exactly what follows |
| Envelope.SerializeForClient | Scripts/GameApi/LiteNetLibFunction.cs:133-139 | the client envelope starts with the receivers tag, is strictly longer than the server envelope, and fails exactly when that one fails |
| Envelope.ClientEnvelopeRoundTrip | Scripts/GameApi/LiteNetLibFunction.cs:133-139 | reading the header back yields the receivers, the target id iff the receivers are `Target`, and then exactly the server envelope bytes |
| Envelope.ClientEnvelopeLength | Scripts/GameApi/LiteNetLibFunction.cs:133-139 | the client envelope is one tag byte, plus the packed id only for `Target`, longer than the server envelope |
| Routing.BroadcastSpec | Scripts/GameApi/LiteNetLibFunction.cs:72-76 | the broadcast sends to each enumerated authorized id as often as it is enumerated, in enumeration order, and to no other id |
| Routing.AfterBroadcast | Scripts/GameApi/LiteNetLibFunction.cs:77-78 | after a broadcast the callback runs once when no local client is connected and not at all otherwise, and nothing else happens |
| Routing.Route | Scripts/GameApi/LiteNetLibFunction.cs:85-86 | a non-server never produces anything except a send to the server |
| Routing.RouteInvariants | Scripts/GameApi/LiteNetLibFunction.cs:59-87 | for every receivers value: server sends only to authorized connections the manager knows; at most one client send, only when not a server and connected; at most one callback, only on a server, after every send |
| Routing.RouteServerTarget | Scripts/GameApi/LiteNetLibFunction.cs:67-70 | on a server with `Target`: exactly one send, to the target, iff it is subscribed-or-owning and a live connection; otherwise no send and no callback |
| Routing.RouteServerAll | Scripts/GameApi/LiteNetLibFunction.cs:71-79 | on a server with `All`: one send per enumerated authorized id, in order, none elsewhere, no client send, and the callback exactly once iff no client is connected locally |
| Routing.RouteServerUndefined | Scripts/GameApi/LiteNetLibFunction.cs:65-83 | on a server with a receivers value the enum does not name: no send and no callback |
| Routing.RouteServerOnly | Scripts/GameApi/LiteNetLibFunction.cs:80-82 | on a server with `Server`: the callback exactly once and nothing else, whatever the connections |
| Routing.RouteClient | Scripts/GameApi/LiteNetLibFunction.cs:85-86 | off the server: exactly one send to the server when connected, for every receivers value, and nothing at all otherwise |
| Calls.ServerSendCall | Scripts/GameApi/LiteNetLibFunction.cs:48-52 | a server send goes to the given connection with the given delivery method, and fails exactly when the envelope does |
| Calls.ClientSendCall | Scripts/GameApi/LiteNetLibFunction.cs:54-57 | a client send uses the given delivery method and fails exactly when the envelope does |
| Calls.HookCallback | Scripts/GameApi/LiteNetLibFunction.cs:43-46 | firing the callback is the local-invoke step |
| Calls.Perform | Scripts/GameApi/LiteNetLibFunction.cs:59-87 | actions follow the route step by step, each carrying its envelope or the current slots; the call stops exactly at a send whose serialization raised |
| Calls.SendCall | Scripts/GameApi/LiteNetLibFunction.cs:59-87 | when the parameters serialize, the performed actions are one per routed step, in route order, each with the right payload and delivery method; when they do not, the call raises iff the route has a send, and then it has performed nothing and raised the serialization error |
| Calls.ServerEnvelopeIgnoresRouting | Scripts/GameApi/LiteNetLibFunction.cs:48-52 | the server send does not depend on the receivers or target it is handed |
| Calls.ServerSendDelivers | Scripts/GameApi/LiteNetLibFunction.cs:141-165 | each server send's payload is the info bytes followed by bytes that a receiver reads back as the caller's slots |
| Calls.ClientSendDelivers | Scripts/GameApi/LiteNetLibFunction.cs:133-165 | each client send's payload carries the receivers, the target iff `Target`, the info, and bytes that read back as the caller's slots |
| Calls.BroadcastToTwoPeers | Scripts/GameApi/LiteNetLibFunction.cs:71-79 | a server broadcasting with peers a and b both authorized sends to a, then to b, and then runs the callback iff no client is connected locally |
| Calls.Call | Scripts/GameApi/LiteNetLibFunction.cs:99-106 | on a stale target: no change and no action; otherwise the slots are updated as by `SetParameters` and the call is routed to the element's own connection id |
| Calls.CallTo | Scripts/GameApi/LiteNetLibFunction.cs:108-115 | on a stale target: no change and no action; otherwise the slots are updated and the call is a reliable-ordered `Target` call to the given id |
| Calls.CallWithoutParametersSet | Scripts/GameApi/LiteNetLibFunction.cs:117-123 | never changes the function; a no-op on a stale target; otherwise routes the current slots to the element's own connection id |
| Calls.CallWithoutParametersSetTo | Scripts/GameApi/LiteNetLibFunction.cs:125-131 | never changes the function; a no-op on a stale target; otherwise a reliable-ordered `Target` call to the given id |

## Left out

- `NetDataWriter.PutValue` / `NetDataReader.GetValue`: their internals belong to the network library. They are the abstract `Codec`, and the per-value round trip is the hypothesis `RoundTrips`. Type mismatch and unsupported type are not told apart; both are a refused `put`.
- `PutPackedULong` / `GetPackedULong`: these are abstract functions, with the hypothesis `PackedRoundTrips`.
- `LiteNetLibElementInfo.SerializeInfo(GetInfo())`: this is an opaque byte prefix. How a receiver decodes it and resolves the function id is not part of this model.
- `Manager.ServerSendPacket` / `ClientSendPacket`: each is recorded as an action. Message-type framing, delivery semantics and dispatch are transport concerns. Every send carries the `CallFunction` message type. The serializer is assumed to run synchronously inside the send, with its exceptions propagating to the caller.
- The server-side re-routing of a client envelope is in the game manager, which is not part of this model. `ReadClientHeader` models only the header layout.
- `IsSubscribedOrOwning`, `ContainsConnectionId`, `GetConnectionIds`, `IsServer`, `IsClientConnected` and `ValidateBeforeAccess`: these are inputs. `ContainsConnectionId` is not tied to `GetConnectionIds`, because the manager is not visible.
- `HookCallback`'s `Delegate.DynamicInvoke`: this is reflection, so it is modelled as a `LocalInvoke` of the current slots. Its exceptions are not modelled, and `Outcome.raised` only records serialization errors. Three cases are left out:
  - a null delegate, which the count-only and generic constructors leave in place;
  - an argument-count or argument-type mismatch;
  - a callback that itself throws, which `DynamicInvoke` wraps in a `TargetInvocationException` that propagates out of `SendCall` and the `Call` overloads.
- The `SendingConnectionId` field written by `ServerSendCall` is left out. It has no effect on routing or payloads.
- RemoteFunction.NewWithCount: takes a `nat`, so the exception that C# raises for a negative count is not modelled.
- A null `parameterTypes` array throws `NullReferenceException` in the constructor, which is not modelled.
- A null `params` array: `SetParameters` throws `NullReferenceException` only when the function has at least one slot. With zero slots the loop never reads the array. Not modelled: values are a sequence.
- Aliasing of the arrays: the `(Type[], Delegate)` constructor stores the caller's array by reference, and `Parameters` and `ParameterTypes` are `public readonly` arrays. Anyone can therefore write their elements, and such writes change what `SerializeParameters` later reads. The model takes both arrays as immutable values. So the promise that the declared types and slot count are unchanged (for example `g.parameterTypes == f.parameterTypes` in `SetParameters` and the `Call` overloads) covers this class's own operations only, not writes made through other references.
- The `Parameters == null` guards are not modelled. The field is readonly and every constructor assigns it, so the guards are unreachable.
- The Unity and LiteNetLib component lifecycle, and concurrency: calls are sequential here.
