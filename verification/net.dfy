/** Scalar vocabulary shared by the model: bytes, the C# `long` and `ulong`
    used for connection ids, the `FunctionReceivers` enumeration and
    LiteNetLib's delivery methods. */
module Net {
  import opened Wrappers

  newtype byte = x: int | 0 <= x < 0x100

  const LongMin: int := -0x8000_0000_0000_0000
  const LongMax: int := 0x7FFF_FFFF_FFFF_FFFF
  const ULongModulus: int := 0x1_0000_0000_0000_0000

  /** A C# `long`; connection ids have this type. */
  type Long = x: int | LongMin <= x <= LongMax

  /** A C# `ulong`. */
  type ULong = x: int | 0 <= x < ULongModulus

  /** The unchecked cast `(ulong)x`: the two's-complement bit pattern of a
      `long` read as unsigned. */
  function ToULong(x: Long): (u: ULong)
    ensures x >= 0 ==> u == x
    ensures x < 0 ==> u == x + ULongModulus
  {
    x % ULongModulus
  }

  /** The unchecked cast `(long)u`, the inverse of `ToULong`. */
  function ToLong(u: ULong): (x: Long)
    ensures u <= LongMax ==> x == u
    ensures u > LongMax ==> x == u - ULongModulus
  {
    if u <= LongMax then u else u - ULongModulus
  }

  lemma LongULongRoundTrip(x: Long)
    ensures ToLong(ToULong(x)) == x
  {
  }

  /** A `FunctionReceivers` value. The C# enum names the bytes 0, 1, 2, but
      as an enum over `byte` it holds any byte: `Undefined(tag)` is a cast
      of an unnamed byte. */
  datatype ReceiversValue = Target | All | Server | Undefined(tag: byte)

  /** Each byte has exactly one representation: `Undefined` only for the
      unnamed bytes 3..255. */
  predicate IsEnumValue(r: ReceiversValue) {
    r.Undefined? ==> r.tag >= 3
  }

  type Receivers = r: ReceiversValue | IsEnumValue(r) witness Target

  /** `(byte)receivers`. */
  function ReceiversTag(r: Receivers): (b: byte)
    ensures ReceiversFromTag(b) == r
    ensures r.Undefined? <==> b >= 3
  {
    match r
    case Target => 0
    case All => 1
    case Server => 2
    case Undefined(tag) => tag
  }

  /** `(FunctionReceivers)b`, the inverse of `ReceiversTag`. */
  function ReceiversFromTag(b: byte): (r: Receivers)
    ensures r.Undefined? <==> b >= 3
  {
    if b == 0 then Target
    else if b == 1 then All
    else if b == 2 then Server
    else Undefined(b)
  }

  /** Every byte is the tag of the receivers value it casts to. */
  lemma ReceiversTagOnto(b: byte)
    ensures ReceiversTag(ReceiversFromTag(b)) == b
  {
  }

  /** LiteNetLib's reliability and ordering classes, carried unchanged by every send. */
  datatype DeliveryMethod =
    | Unreliable
    | ReliableUnordered
    | Sequenced
    | ReliableOrdered
    | ReliableSequenced
}
