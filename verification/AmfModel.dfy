/**
  The AMF0 codec (rtmp_lib/amf.c): mutually recursive encoder and decoder over nested values.  The types
  and the forms are those of sections 2.2 to 2.14 of the AMF 0 specification.
 */
module AmfModel {
  import opened Common

  /** Numbers are the eight bytes of a double as they lie in memory, lowest first. */
  datatype Value =
    | Number(bits: seq<byte>)
    | Boolean(b: bool)
    | Str(s: seq<byte>)
    | Null
    | Object(props: seq<Prop>)
    | EcmaArray(props: seq<Prop>)
    | StrictArray(props: seq<Prop>)
    | Date(bits: seq<byte>, zone: nat)
    | XmlDoc(s: seq<byte>)
    /** A string said to be longer than any buffer. */
    | Beyond(length: nat)
    | Invalid

  /** `AMFObjectProperty` */
  datatype Prop = Prop(name: seq<byte>, value: Value)

  const NUMBER := 0
  const BOOLEAN := 1
  const STRING := 2
  const OBJECT := 3
  const NULL := 5
  const UNDEFINED := 6
  const ECMA_ARRAY := 8
  const OBJECT_END := 9
  const STRICT_ARRAY := 10
  const DATE := 11
  const LONG_STRING := 12
  const UNSUPPORTED := 13
  const XML_DOC := 15

  const END_MARK: seq<byte> := [0, 0, OBJECT_END]

  function Reverse8(b: seq<byte>): seq<byte> {
    if |b| == 8 then [b[7], b[6], b[5], b[4], b[3], b[2], b[1], b[0]] else b
  }

  // ---------------------------------------------------------------- encoding in full

  function StringBytes(s: seq<byte>): seq<byte> {
    if |s| < 0x1_0000 then [STRING] + Big16(|s|) + s else [LONG_STRING] + Big32(|s|) + s
  }

  function NameBytes(p: Prop): seq<byte> {
    if p.value.Null? || p.name == [] then [] else Big16(|p.name|) + p.name
  }

  /** The encoding of a property when there is room for all of it. */
  function Full(p: Prop): seq<byte>
    decreases p, 0
  {
    NameBytes(p) + FullValue(p.value)
  }

  function FullValue(v: Value): seq<byte>
    decreases v, 1
  {
    match v
    case Number(bits) => [NUMBER] + Reverse8(bits)
    case Boolean(b) => [BOOLEAN, if b then 1 else 0]
    case Str(s) => StringBytes(s)
    case Null => [NULL]
    case Object(props) => [OBJECT] + FullAll(props) + END_MARK
    case EcmaArray(props) => [ECMA_ARRAY] + Big32(|props|) + FullAll(props) + END_MARK
    case StrictArray(props) => [STRICT_ARRAY] + Big32(|props|) + FullAll(props)
    case _ => []
  }

  function FullAll(props: seq<Prop>): seq<byte>
    decreases props, 0
  {
    if props == [] then [] else Full(props[0]) + FullAll(props[1..])
  }

  // ---------------------------------------------------------------- encoding into a buffer

  /** `AMF_EncodeString`; the second test asks for two bytes more than a short string takes. */
  function EncodeString(s: seq<byte>, room: int): Option<seq<byte>> {
    if (|s| < 0x1_0000 && 1 + 2 + |s| > room) || 1 + 4 + |s| > room then None else Some(StringBytes(s))
  }

  /** `AMFProp_Encode` with `room` bytes up to the end of the buffer. */
  function EncodeProp(p: Prop, room: int): Option<seq<byte>>
    decreases p, 0
  {
    if p.value.Invalid? then None
    else if !p.value.Null? && |p.name| + 2 + 1 >= room then None
    else
      match EncodeValue(p.value, room - |NameBytes(p)|)
      case None => None
      case Some(b) => Some(NameBytes(p) + b)
  }

  function EncodeValue(v: Value, room: int): Option<seq<byte>>
    decreases v, 1
  {
    match v
    case Number(bits) => if 1 + 8 > room then None else Some([NUMBER] + Reverse8(bits))
    case Boolean(b) => if 2 > room then None else Some([BOOLEAN, if b then 1 else 0])
    case Str(s) => EncodeString(s, room)
    case Null => if 1 >= room then None else Some([NULL])
    case Object(props) =>
      if 4 >= room then None else Ended([OBJECT] + EncodeAll(props, room - 1), room)
    case EcmaArray(props) =>
      if 4 >= room then None else Ended([ECMA_ARRAY] + Big32(|props|) + EncodeAll(props, room - 5), room)
    case StrictArray(props) =>
      if 4 >= room then None else Some([STRICT_ARRAY] + Big32(|props|) + EncodeAll(props, room - 5))
    case _ => None
  }

  /** The end mark, if there is room for it and one byte more. */
  function Ended(b: seq<byte>, room: int): Option<seq<byte>> {
    if |b| + 3 >= room then None else Some(b + END_MARK)
  }

  /** The properties up to the first one that cannot be encoded; the rest is silently left out. */
  function EncodeAll(props: seq<Prop>, room: int): seq<byte>
    decreases props, 0
  {
    if props == [] then [] else
    match EncodeProp(props[0], room)
    case None => []
    case Some(b) => b + EncodeAll(props[1..], room - |b|)
  }

  // ---------------------------------------------------------------- decoding

  function Read16(m: Memory, at: nat): nat {
    m(at) * 256 + m(at + 1)
  }

  function Read24(m: Memory, at: nat): nat {
    m(at) * 0x1_0000 + m(at + 1) * 256 + m(at + 2)
  }

  function Read32(m: Memory, at: nat): (n: nat)
    ensures n < 0x1_0000_0000
  {
    m(at) * 0x100_0000 + m(at + 1) * 0x1_0000 + m(at + 2) * 256 + m(at + 3)
  }

  /** An `unsigned int` passed as an `int`. */
  function Signed(n: nat): int {
    if n < 0x8000_0000 then n else n - 0x1_0000_0000
  }

  /** A length as a `long`, which has 64 bits or 32. */
  function AsLong(wide: bool, n: nat): int {
    if wide then n else Signed(n)
  }

  /**
    -1, or a result and the number of bytes used; or decoding does not get on, for a length that is not
    positive as a `long` has led back to where it was, or to before that.
   */
  datatype Decoded<T> = Error | Got(value: T, used: int) | Astray

  function Positive(size: int): nat {
    if size < 0 then 0 else size
  }

  /** `AMFProp_Decode` */
  function DecodeProp(wide: bool, m: Memory, at: nat, size: nat, named: bool): (r: Decoded<Prop>)
    ensures r.Got? ==> r.used <= size + 4 && (wide ==> r.used >= 1)
    ensures wide ==> !r.Astray?
    decreases size, 0
  {
    if size == 0 || (named && size < 4) then Error
    else if named && Read16(m, at) > size - 2 then Error
    else
      var skip := if named then 2 + Read16(m, at) else 0;
      if size == skip then Error else
      match DecodeValue(wide, m, at + skip + 1, size - skip - 1, m(at + skip))
      case Error => Error
      case Astray => Astray
      case Got(v, used) => Got(Prop(if named then Slice(m, at + 2, Read16(m, at)) else [], v), skip + 1 + used)
  }

  /** The value behind its type byte. */
  function DecodeValue(wide: bool, m: Memory, at: nat, size: nat, kind: byte): (r: Decoded<Value>)
    ensures r.Got? ==> r.used <= size + 4 && (wide ==> r.used >= 0)
    ensures wide ==> !r.Astray?
    decreases size, 2
  {
    if kind == NUMBER then
      if size < 8 then Error else Got(Number(Reverse8(Slice(m, at, 8))), 8)
    else if kind == BOOLEAN then
      if size < 1 then Error else Got(Boolean(m(at) != 0), 1)
    else if kind == STRING then
      if size < Read16(m, at) + 2 then Error else Got(Str(Slice(m, at + 2, Read16(m, at))), 2 + Read16(m, at))
    else if kind == OBJECT then
      match DecodeAll(wide, m, at, size, true)
      case Error => Error
      case Astray => Astray
      case Got(props, used) => Got(Object(props), used)
    else if kind == NULL || kind == UNDEFINED || kind == UNSUPPORTED then Got(Null, 0)
    else if kind == ECMA_ARRAY then
      match DecodeAll(wide, m, at + 4, size - 4, true)
      case Error => Error
      case Astray => Astray
      case Got(props, used) => Got(EcmaArray(props), 4 + used)
    else if kind == STRICT_ARRAY then
      match DecodeArray(wide, m, at + 4, size - 4, Signed(Read32(m, at)), false)
      case Error => Error
      case Astray => Astray
      case Got(props, used) => Got(StrictArray(props), 4 + used)
    else if kind == DATE then
      if size < 10 then Error else Got(Date(Reverse8(Slice(m, at, 8)), Read16(m, at + 8)), 10)
    else if kind == LONG_STRING || kind == XML_DOC then LongString(wide, m, at, size, kind)
    else Error
  }

  /** A string with a length of 32 bits; one of 2^31 or more, taken for negative, passes the test of the size. */
  function LongString(wide: bool, m: Memory, at: nat, size: nat, kind: byte): (r: Decoded<Value>)
    ensures r.Got? ==> r.used <= size + 4 && (wide ==> r.used >= 0)
    ensures !r.Astray?
  {
    var n := Read32(m, at);
    if size < AsLong(wide, n) + 4 then Error
    else if AsLong(wide, n) < 0 then Got(Beyond(n), 4 + AsLong(wide, n))
    else
      var s := Slice(m, at + 4, n);
      Got(if kind == XML_DOC then XmlDoc(s) else Str(s), 4 + n)
  }

  /** `AMF_Decode`: up to an end mark, or to the end of the buffer. */
  function DecodeAll(wide: bool, m: Memory, at: nat, size: int, named: bool): (r: Decoded<seq<Prop>>)
    ensures r.Got? ==> 0 <= r.used <= Positive(size)
    ensures wide ==> !r.Astray?
    decreases Positive(size), 1
  {
    if size <= 0 then Got([], 0)
    else if size >= 3 && Read24(m, at) == OBJECT_END then Got([], 3)
    else
      match DecodeProp(wide, m, at, size, named)
      case Error => Error
      case Astray => Astray
      case Got(p, used) =>
        if size - used < 0 then Error else if used <= 0 then Astray else
        match DecodeAll(wide, m, at + used, size - used, named)
        case Error => Error
        case Astray => Astray
        case Got(props, more) => Got([p] + props, used + more)
  }

  /** `AMF_DecodeArray` */
  function DecodeArray(wide: bool, m: Memory, at: nat, size: int, count: int, named: bool): (r: Decoded<seq<Prop>>)
    ensures r.Got? ==> 0 <= r.used <= Positive(size) + 4 && (size <= 0 ==> r.used == 0)
    ensures wide ==> !r.Astray?
    decreases Positive(size), 1
  {
    if count <= 0 then Got([], 0)
    else if size <= 0 then Error
    else
      match DecodeProp(wide, m, at, size, named)
      case Error => Error
      case Astray => Astray
      case Got(p, used) =>
        if used <= 0 then Astray else
        match DecodeArray(wide, m, at + used, size - used, count - 1, named)
        case Error => Error
        case Astray => Astray
        case Got(props, more) => Got([p] + props, used + more)
  }
}
