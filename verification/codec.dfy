/** Parameter marshalling of `LiteNetLibFunction` (`SerializeParameters` and
    `DeserializeParameters`): the slots are walked in order and each one is
    written or read with the codec of its declared type. No count and no
    length prefixes are written, so the bytes are only meaningful to a reader
    that already knows the declared types. */
module ParameterCodec {
  import opened Wrappers
  import opened Net

  /** A C# `System.Type` that the value codec can dispatch on. */
  type TypeTag(==, !new)

  /** The contents of a boxed C# object. */
  type Value(==, !new)

  /** A declared parameter type; `NoType` is the null a slot's type holds
      when the function was built from a bare parameter count. */
  datatype TypeRef = NoType | TypeOf(tag: TypeTag)

  /** One element of the `object[] Parameters` array; fresh arrays hold `Null`. */
  datatype Slot = Null | Boxed(value: Value)

  /** The per-type value codec of the network library (`NetDataWriter.PutValue`
      and `NetDataReader.GetValue`). `put` answers `None` where the writer
      throws (an unsupported type, or a value not of the declared type); `get`
      answers `None` where the reader throws, and otherwise the value read and
      the bytes left after it. */
  datatype Codec = Codec(
    put: (TypeRef, Slot) -> Option<seq<byte>>,
    get: (TypeRef, seq<byte>) -> Option<(Slot, seq<byte>)>)

  /** The one fact assumed of the value codec: whatever `put` writes for a
      type, `get` reads back under that type, consuming exactly those bytes. */
  ghost predicate RoundTrips(c: Codec) {
    forall t, v, rest :: c.put(t, v).Some? ==> c.get(t, c.put(t, v).value + rest) == Some((v, rest))
  }

  /** Why marshalling raised, with the index of the slot it stopped at. */
  datatype CodecError = PutRejected(index: nat) | GetFailed(index: nat)

  /** True when every slot from `from` on is accepted by the writer under its declared type. */
  ghost predicate AllAccepted(c: Codec, types: seq<TypeRef>, slots: seq<Slot>, from: nat)
    requires |types| == |slots|
  {
    forall i :: from <= i < |slots| ==> c.put(types[i], slots[i]).Some?
  }

  /** The bytes `writer.PutValue` appends for slots `from..` in order, or the
      first slot the writer refuses. */
  function EncodeFrom(c: Codec, types: seq<TypeRef>, slots: seq<Slot>, from: nat): (r: Result<seq<byte>, CodecError>)
    requires |types| == |slots| && from <= |slots|
    ensures r.Success? <==> AllAccepted(c, types, slots, from)
    ensures r.Failure? ==>
      && r.error.PutRejected?
      && from <= r.error.index < |slots|
      && c.put(types[r.error.index], slots[r.error.index]).None?
      && forall i :: from <= i < r.error.index ==> c.put(types[i], slots[i]).Some?
    decreases |slots| - from
  {
    if from == |slots| then Success([])
    else
      match c.put(types[from], slots[from])
      case None => Failure(PutRejected(from))
      case Some(b) =>
        var tail :- EncodeFrom(c, types, slots, from + 1);
        Success(b + tail)
  }

  /** `SerializeParameters`: nothing for an empty parameter list, otherwise
      every slot under its declared type, in slot order. */
  function SerializeParameters(c: Codec, types: seq<TypeRef>, slots: seq<Slot>): (r: Result<seq<byte>, CodecError>)
    requires |types| == |slots|
    ensures |slots| == 0 ==> r == Success([])
    ensures r.Success? <==> AllAccepted(c, types, slots, 0)
    ensures r.Failure? ==>
      && r.error.PutRejected?
      && r.error.index < |slots|
      && c.put(types[r.error.index], slots[r.error.index]).None?
      && forall i :: 0 <= i < r.error.index ==> c.put(types[i], slots[i]).Some?
  {
    if |slots| == 0 then Success([]) else EncodeFrom(c, types, slots, 0)
  }

  /** The state `DeserializeParameters` leaves behind: the slot array, the
      bytes left in the reader, and the read that raised, if one did. `rest`
      is meaningful only when `failure` is `None`: how much a raising
      `GetValue` consumed before it raised is not modelled, and the model
      keeps the input of that read as it was. */
  datatype ReadResult = ReadResult(slots: seq<Slot>, rest: seq<byte>, failure: Option<CodecError>)

  /** Reads slots `from..` in order, overwriting each as it is read. A read
      that raises stops the loop: slots already read stay overwritten, the
      others keep their old values, and `rest` carries no meaning. */
  function DecodeFrom(c: Codec, types: seq<TypeRef>, slots: seq<Slot>, from: nat, input: seq<byte>): (r: ReadResult)
    requires |types| == |slots| && from <= |slots|
    ensures |r.slots| == |slots|
    ensures forall i :: 0 <= i < from ==> r.slots[i] == slots[i]
    ensures r.failure.Some? ==>
      && r.failure.value.GetFailed?
      && from <= r.failure.value.index < |slots|
      && forall i :: r.failure.value.index <= i < |slots| ==> r.slots[i] == slots[i]
    decreases |slots| - from
  {
    if from == |slots| then ReadResult(slots, input, None)
    else
      match c.get(types[from], input)
      case None => ReadResult(slots, input, Some(GetFailed(from)))
      case Some((v, tail)) => DecodeFrom(c, types, slots[from := v], from + 1, tail)
  }

  /** `DeserializeParameters`: reads nothing for an empty parameter list,
      otherwise overwrites every slot in order from `input`. */
  function DeserializeParameters(c: Codec, types: seq<TypeRef>, slots: seq<Slot>, input: seq<byte>): (r: ReadResult)
    requires |types| == |slots|
    ensures |r.slots| == |slots|
    ensures |slots| == 0 ==> r == ReadResult(slots, input, None)
    ensures r.failure.Some? ==>
      && r.failure.value.GetFailed?
      && r.failure.value.index < |slots|
      && forall i :: r.failure.value.index <= i < |slots| ==> r.slots[i] == slots[i]
  {
    if |slots| == 0 then ReadResult(slots, input, None) else DecodeFrom(c, types, slots, 0, input)
  }

  lemma {:induction false} EncodeDecodeFrom(c: Codec, types: seq<TypeRef>, slots: seq<Slot>, cur: seq<Slot>, from: nat, rest: seq<byte>)
    requires RoundTrips(c)
    requires |types| == |slots| == |cur| && from <= |slots|
    requires forall i :: 0 <= i < from ==> cur[i] == slots[i]
    requires EncodeFrom(c, types, slots, from).Success?
    ensures DecodeFrom(c, types, cur, from, EncodeFrom(c, types, slots, from).value + rest) == ReadResult(slots, rest, None)
    decreases |slots| - from
  {
    if from == |slots| {
      assert cur == slots;
    } else {
      var b := c.put(types[from], slots[from]).value;
      var tail := EncodeFrom(c, types, slots, from + 1).value;
      assert EncodeFrom(c, types, slots, from).value + rest == b + (tail + rest);
      assert c.get(types[from], b + (tail + rest)) == Some((slots[from], tail + rest));
      var cur' := cur[from := slots[from]];
      EncodeDecodeFrom(c, types, slots, cur', from + 1, rest);
    }
  }

  /** Round trip: given a value codec that round-trips, reading back what
      `SerializeParameters` wrote restores every slot, whatever the reader's
      slots held before, and leaves exactly the bytes that followed. */
  lemma ParametersRoundTrip(c: Codec, types: seq<TypeRef>, slots: seq<Slot>, before: seq<Slot>, rest: seq<byte>)
    requires RoundTrips(c)
    requires |types| == |slots| == |before|
    requires SerializeParameters(c, types, slots).Success?
    ensures DeserializeParameters(c, types, before, SerializeParameters(c, types, slots).value + rest) == ReadResult(slots, rest, None)
  {
    if |slots| == 0 {
      assert before == slots == [];
    } else {
      EncodeDecodeFrom(c, types, slots, before, 0, rest);
    }
  }

  lemma {:induction false} EncodeFromSplit(c: Codec, types: seq<TypeRef>, slots: seq<Slot>, from: nat, mid: nat)
    requires |types| == |slots| && from <= mid <= |slots|
    requires EncodeFrom(c, types, slots, from).Success?
    ensures EncodeFrom(c, types[..mid], slots[..mid], from).Success?
    ensures EncodeFrom(c, types, slots, mid).Success?
    ensures EncodeFrom(c, types, slots, from).value
         == EncodeFrom(c, types[..mid], slots[..mid], from).value + EncodeFrom(c, types, slots, mid).value
    decreases mid - from
  {
    if from < mid {
      assert types[..mid][from] == types[from] && slots[..mid][from] == slots[from];
      EncodeFromSplit(c, types, slots, from + 1, mid);
    }
  }

  /** The encoding of a parameter list is the concatenation of the encodings
      of any split of it into a prefix and a suffix (the suffix carries its
      own declared types). */
  lemma SerializeConcatenates(c: Codec, types: seq<TypeRef>, slots: seq<Slot>, mid: nat)
    requires |types| == |slots| && mid <= |slots|
    requires SerializeParameters(c, types, slots).Success?
    ensures SerializeParameters(c, types[..mid], slots[..mid]).Success?
    ensures SerializeParameters(c, types[mid..], slots[mid..]).Success?
    ensures SerializeParameters(c, types, slots).value
         == SerializeParameters(c, types[..mid], slots[..mid]).value + SerializeParameters(c, types[mid..], slots[mid..]).value
  {
    if |slots| > 0 {
      EncodeFromSplit(c, types, slots, 0, mid);
      EncodeFromDrop(c, types, slots, mid, mid);
    }
  }

  lemma {:induction false} EncodeFromDrop(c: Codec, types: seq<TypeRef>, slots: seq<Slot>, k: nat, from: nat)
    requires |types| == |slots| && k <= from <= |slots|
    ensures EncodeFrom(c, types, slots, from).Success? <==> EncodeFrom(c, types[k..], slots[k..], from - k).Success?
    ensures EncodeFrom(c, types, slots, from).Success? ==>
      EncodeFrom(c, types, slots, from).value == EncodeFrom(c, types[k..], slots[k..], from - k).value
    decreases |slots| - from
  {
    if from < |slots| {
      var ts, ss := types[k..], slots[k..];
      assert ts[from - k] == types[from] && ss[from - k] == slots[from];
      EncodeFromDrop(c, types, slots, k, from + 1);
      assert from - k + 1 == from + 1 - k;
    }
  }

  /** A single parameter is encoded exactly as the value codec writes it. */
  lemma SerializeSingle(c: Codec, t: TypeRef, s: Slot)
    ensures SerializeParameters(c, [t], [s]).Success? <==> c.put(t, s).Some?
    ensures c.put(t, s).Some? ==> SerializeParameters(c, [t], [s]).value == c.put(t, s).value
  {
    assert EncodeFrom(c, [t], [s], 1) == Success([]);
    if c.put(t, s).Some? {
      assert c.put(t, s).value + [] == c.put(t, s).value;
    }
  }

  lemma {:induction false} DecodeFromOverwrites(c: Codec, types: seq<TypeRef>, s1: seq<Slot>, s2: seq<Slot>, from: nat, input: seq<byte>)
    requires |types| == |s1| == |s2| && from <= |s1|
    requires forall i :: 0 <= i < from ==> s1[i] == s2[i]
    ensures DecodeFrom(c, types, s1, from, input).failure == DecodeFrom(c, types, s2, from, input).failure
    ensures DecodeFrom(c, types, s1, from, input).rest == DecodeFrom(c, types, s2, from, input).rest
    ensures DecodeFrom(c, types, s1, from, input).failure.None? ==>
      DecodeFrom(c, types, s1, from, input).slots == DecodeFrom(c, types, s2, from, input).slots
    decreases |s1| - from
  {
    if from == |s1| {
      assert s1 == s2;
    } else {
      match c.get(types[from], input)
      case None =>
      case Some((v, tail)) =>
        var s1', s2' := s1[from := v], s2[from := v];
        DecodeFromOverwrites(c, types, s1', s2', from + 1, tail);
    }
  }

  /** A read that completes overwrites every slot: its outcome does not
      depend on what the slots held before (only a read that raises leaves
      old values behind). */
  lemma DeserializeOverwritesAll(c: Codec, types: seq<TypeRef>, s1: seq<Slot>, s2: seq<Slot>, input: seq<byte>)
    requires |types| == |s1| == |s2|
    ensures DeserializeParameters(c, types, s1, input).failure == DeserializeParameters(c, types, s2, input).failure
    ensures DeserializeParameters(c, types, s1, input).rest == DeserializeParameters(c, types, s2, input).rest
    ensures DeserializeParameters(c, types, s1, input).failure.None? ==>
      DeserializeParameters(c, types, s1, input).slots == DeserializeParameters(c, types, s2, input).slots
  {
    if |s1| == 0 {
      assert s1 == s2 == [];
    } else {
      DecodeFromOverwrites(c, types, s1, s2, 0, input);
    }
  }
}
