/** The two byte layouts of a remote call. A server sends
    `info ++ parameters`; a client sends a receivers tag byte, then the
    packed target connection id only when the receivers are `Target`, then
    the same `info ++ parameters`. */
module Envelope {
  import opened Wrappers
  import opened Net
  import opened ParameterCodec
  import opened RemoteFunction

  /** What the envelope writer needs from its surroundings: the value codec,
      the bytes `LiteNetLibElementInfo.SerializeInfo(GetInfo(), writer)`
      writes for this function's owner, and the library's variable-length
      unsigned integer writer and reader (`PutPackedULong`, `GetPackedULong`). */
  datatype Wire = Wire(
    codec: Codec,
    info: seq<byte>,
    packULong: ULong -> seq<byte>,
    unpackULong: seq<byte> -> Option<(ULong, seq<byte>)>)

  /** What is assumed of the packed integer codec: it reads back what it
      wrote and consumes exactly those bytes. */
  ghost predicate PackedRoundTrips(w: Wire) {
    forall u: ULong, rest :: w.unpackULong(w.packULong(u) + rest) == Some((u, rest))
  }

  /** `SerializeForSend`: the element info, then the parameters. It raises
      exactly when the parameters cannot be serialized. */
  function SerializeForSend(w: Wire, f: Function): (r: Result<seq<byte>, CodecError>)
    requires f.WellFormed()
    ensures r.Success? <==> SerializeParameters(w.codec, f.parameterTypes, f.parameters).Success?
    ensures r.Failure? ==> r == SerializeParameters(w.codec, f.parameterTypes, f.parameters)
    ensures r.Success? ==>
      && |w.info| <= |r.value|
      && r.value[..|w.info|] == w.info
      && r.value[|w.info|..] == SerializeParameters(w.codec, f.parameterTypes, f.parameters).value
  {
    var parameters :- SerializeParameters(w.codec, f.parameterTypes, f.parameters);
    Success(w.info + parameters)
  }

  /** The routing header a client puts in front of the call: the receivers
      tag, then the packed target id only for `Target`. */
  function ClientHeader(w: Wire, receivers: Receivers, targetConnectionId: Long): (h: seq<byte>)
    ensures 1 <= |h| && h[0] == ReceiversTag(receivers) && ReceiversFromTag(h[0]) == receivers
    ensures receivers != Target ==> |h| == 1
  {
    [ReceiversTag(receivers)] + if receivers == Target then w.packULong(ToULong(targetConnectionId)) else []
  }

  /** `SerializeForClient`: the routing header, then exactly the bytes
      `SerializeForSend` produces. */
  function SerializeForClient(w: Wire, f: Function, receivers: Receivers, targetConnectionId: Long): (r: Result<seq<byte>, CodecError>)
    requires f.WellFormed()
    ensures r.Success? <==> SerializeForSend(w, f).Success?
    ensures r.Failure? ==> r == SerializeForSend(w, f)
    ensures r.Success? ==>
      && |r.value| > |SerializeForSend(w, f).value|
      && r.value[0] == ReceiversTag(receivers)
  {
    var body :- SerializeForSend(w, f);
    Success(ClientHeader(w, receivers, targetConnectionId) + body)
  }

  /** The routing intent a server reads from the front of a client envelope:
      the receivers, the target connection id (only for `Target`), and the
      bytes that follow. `None` when the envelope is empty or the packed id
      cannot be read. */
  function ReadClientHeader(w: Wire, bytes: seq<byte>): (r: Option<(Receivers, Option<Long>, seq<byte>)>)
    ensures r.Some? ==> |bytes| >= 1 && ReceiversFromTag(bytes[0]) == r.value.0
    ensures r.Some? ==> (r.value.1.Some? <==> r.value.0 == Target)
    ensures r.Some? && r.value.0 != Target ==> r.value.2 == bytes[1..]
  {
    if |bytes| == 0 then None
    else
      var receivers := ReceiversFromTag(bytes[0]);
      if receivers == Target then
        var (u, rest) :- w.unpackULong(bytes[1..]);
        Some((receivers, Some(ToLong(u)), rest))
      else
        Some((receivers, None, bytes[1..]))
  }

  /** The header round trip: whatever follows a client header, a reader of
      the header recovers the receivers, the target id exactly when the
      receivers are `Target`, and then exactly what follows. */
  lemma ClientHeaderRoundTrip(w: Wire, receivers: Receivers, targetConnectionId: Long, rest: seq<byte>)
    requires PackedRoundTrips(w)
    ensures ReadClientHeader(w, ClientHeader(w, receivers, targetConnectionId) + rest)
         == Some((receivers, if receivers == Target then Some(targetConnectionId) else None, rest))
  {
    var bytes := ClientHeader(w, receivers, targetConnectionId) + rest;
    if receivers == Target {
      var packed := w.packULong(ToULong(targetConnectionId));
      assert bytes[1..] == packed + rest;
      assert w.unpackULong(packed + rest) == Some((ToULong(targetConnectionId), rest));
      LongULongRoundTrip(targetConnectionId);
    } else {
      assert bytes[1..] == rest;
    }
  }

  /** The client envelope round trip: a server reading the header of what a
      client wrote recovers the receivers, the target id exactly when the
      receivers are `Target`, and then exactly the `SerializeForSend` bytes. */
  lemma ClientEnvelopeRoundTrip(w: Wire, f: Function, receivers: Receivers, targetConnectionId: Long)
    requires PackedRoundTrips(w)
    requires f.WellFormed()
    requires SerializeForSend(w, f).Success?
    ensures SerializeForClient(w, f, receivers, targetConnectionId).Success?
    ensures ReadClientHeader(w, SerializeForClient(w, f, receivers, targetConnectionId).value)
         == Some((receivers, if receivers == Target then Some(targetConnectionId) else None, SerializeForSend(w, f).value))
  {
    ClientHeaderRoundTrip(w, receivers, targetConnectionId, SerializeForSend(w, f).value);
  }

  /** A client envelope is longer than the bare call by exactly its header:
      one tag byte, plus the packed id when the receivers are `Target`. */
  lemma ClientEnvelopeLength(w: Wire, f: Function, receivers: Receivers, targetConnectionId: Long)
    requires f.WellFormed()
    requires SerializeForSend(w, f).Success?
    ensures |SerializeForClient(w, f, receivers, targetConnectionId).value|
         == 1 + (if receivers == Target then |w.packULong(ToULong(targetConnectionId))| else 0) + |SerializeForSend(w, f).value|
  {
  }
}
