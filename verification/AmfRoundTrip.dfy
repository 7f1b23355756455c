/**
  Properties of the AMF0 codec (rtmp_lib/amf.c): round trip, room, and what decoding depends on.
 */
module AmfRoundTrip {
  import opened Common
  import opened AmfModel

  // ---------------------------------------------------------------- what can be encoded

  /** Lengths and counts are `int`s. */
  const INT_LIMIT := 0x8000_0000

  predicate ValueOk(v: Value)
    decreases v, 1
  {
    match v
    case Number(bits) => |bits| == 8
    case Boolean(_) => true
    case Str(s) => |s| < INT_LIMIT
    case Null => true
    case Object(props) => |props| < INT_LIMIT && MembersOk(props, true)
    case EcmaArray(props) => |props| < INT_LIMIT && MembersOk(props, true)
    case StrictArray(props) => |props| < INT_LIMIT && MembersOk(props, false)
    case _ => false
  }

  /** A member of an object has a name and is not null; an element of a strict array has no name. */
  predicate PropOk(p: Prop, named: bool)
    decreases p, 0
  {
    && ValueOk(p.value)
    && (if named then 0 < |p.name| < 0x1_0000 && !p.value.Null? else p.name == [])
  }

  predicate MembersOk(props: seq<Prop>, named: bool)
    decreases props, 0
  {
    props == [] || (PropOk(props[0], named) && MembersOk(props[1..], named))
  }

  // ---------------------------------------------------------------- integers

  lemma Int16Reads(n: nat, m: Memory, at: nat)
    requires n < 0x1_0000 && Holds(m, at, Big16(n))
    ensures Read16(m, at) == n
  {
    assert m(at + 0) == Big16(n)[0] && m(at + 1) == Big16(n)[1];
  }

  lemma Int32Reads(n: nat, m: Memory, at: nat)
    requires n < 0x1_0000_0000 && Holds(m, at, Big32(n))
    ensures Read32(m, at) == n
  {
    Octets(n);
    assert m(at + 0) == Big32(n)[0] && m(at + 1) == Big32(n)[1] && m(at + 2) == Big32(n)[2] && m(at + 3) == Big32(n)[3];
  }

  /** The memory holds these bytes. */
  ghost predicate Holds(m: Memory, at: nat, b: seq<byte>) {
    forall k :: 0 <= k < |b| ==> m(at + k) == b[k]
  }

  lemma HoldsParts(m: Memory, at: nat, a: seq<byte>, b: seq<byte>)
    requires Holds(m, at, a + b)
    ensures Holds(m, at, a) && Holds(m, at + |a|, b)
  {
    forall k | 0 <= k < |a|
      ensures m(at + k) == a[k]
    {
      assert (a + b)[k] == a[k];
    }
    forall k | 0 <= k < |b|
      ensures m(at + |a| + k) == b[k]
    {
      assert (a + b)[|a| + k] == b[k];
      assert m(at + (|a| + k)) == b[k];
    }
  }

  lemma HoldsFirst(m: Memory, at: nat, x: byte, b: seq<byte>)
    requires Holds(m, at, [x] + b)
    ensures m(at) == x && Holds(m, at + 1, b)
  {
    var first: seq<byte> := [x];
    HoldsParts(m, at, first, b);
    assert m(at + 0) == first[0];
  }

  lemma HoldsSlice(m: Memory, at: nat, b: seq<byte>)
    requires Holds(m, at, b)
    ensures Slice(m, at, |b|) == b
  {
    assert forall k :: 0 <= k < |b| ==> Slice(m, at, |b|)[k] == m(at + k);
  }

  // ---------------------------------------------------------------- round trip

  lemma NumberReads(wide: bool, bits: seq<byte>, m: Memory, at: nat, size: nat)
    requires |bits| == 8 && Holds(m, at, [NUMBER] + Reverse8(bits)) && size >= 8
    ensures m(at) == NUMBER && DecodeValue(wide, m, at + 1, size, NUMBER) == Got(Number(bits), 8)
  {
    HoldsFirst(m, at, NUMBER, Reverse8(bits));
    HoldsSlice(m, at + 1, Reverse8(bits));
    assert Reverse8(Reverse8(bits)) == bits;
  }

  lemma StringReads(wide: bool, s: seq<byte>, m: Memory, at: nat, size: nat)
    requires |s| < INT_LIMIT && Holds(m, at, StringBytes(s)) && size + 1 >= |StringBytes(s)|
    ensures DecodeValue(wide, m, at + 1, size, m(at)) == Got(Str(s), |StringBytes(s)| - 1)
  {
    if |s| < 0x1_0000 {
      assert StringBytes(s) == [STRING] + (Big16(|s|) + s);
      HoldsFirst(m, at, STRING, Big16(|s|) + s);
      HoldsParts(m, at + 1, Big16(|s|), s);
      Int16Reads(|s|, m, at + 1);
      HoldsSlice(m, at + 3, s);
    } else {
      assert StringBytes(s) == [LONG_STRING] + (Big32(|s|) + s);
      HoldsFirst(m, at, LONG_STRING, Big32(|s|) + s);
      HoldsParts(m, at + 1, Big32(|s|), s);
      Int32Reads(|s|, m, at + 1);
      HoldsSlice(m, at + 5, s);
    }
  }

  lemma FullNotEmpty(p: Prop, named: bool)
    requires PropOk(p, named)
    ensures |FullValue(p.value)| >= 1
    ensures |Full(p)| == |NameBytes(p)| + |FullValue(p.value)|
  {
  }

  lemma FullAllMore(props: seq<Prop>)
    requires props != []
    ensures FullAll(props) == Full(props[0]) + FullAll(props[1..])
  {
  }

  /**
    AMF0 round trip: wherever the encoding of a value lies in the memory, decoding gives back the value
    and uses exactly its bytes.
   */
  lemma {:induction false} ValueReads(wide: bool, v: Value, m: Memory, at: nat, size: nat)
    requires ValueOk(v) && Holds(m, at, FullValue(v)) && size + 1 >= |FullValue(v)|
    ensures DecodeValue(wide, m, at + 1, size, m(at)) == Got(v, |FullValue(v)| - 1)
    decreases v, 1
  {
    if v.Object? || v.EcmaArray? {
      ObjectReads(wide, v, m, at, size);
    } else if v.StrictArray? {
      StrictReads(wide, v, m, at, size);
    } else {
      hide DecodeAll;
      hide DecodeArray;
      match v
      case Number(bits) => NumberReads(wide, bits, m, at, size);
      case Boolean(b) =>
        assert m(at + 0) == FullValue(v)[0] && m(at + 1) == FullValue(v)[1];
      case Str(s) => StringReads(wide, s, m, at, size);
      case Null =>
        assert m(at + 0) == FullValue(v)[0];
    }
  }

  lemma {:induction false} ObjectReads(wide: bool, v: Value, m: Memory, at: nat, size: nat)
    requires ValueOk(v) && (v.Object? || v.EcmaArray?)
    requires Holds(m, at, FullValue(v)) && size + 1 >= |FullValue(v)|
    ensures DecodeValue(wide, m, at + 1, size, m(at)) == Got(v, |FullValue(v)| - 1)
    decreases v, 0
  {
    hide MembersOk;
    hide FullAll;
    hide DecodeAll;
    hide DecodeArray;
    hide LongString;
    var body := FullAll(v.props) + END_MARK;
    if v.Object? {
      assert FullValue(v) == [OBJECT] + body;
      HoldsFirst(m, at, OBJECT, body);
      MembersRead(wide, v.props, m, at + 1, size);
    } else {
      assert FullValue(v) == [ECMA_ARRAY] + (Big32(|v.props|) + body);
      HoldsFirst(m, at, ECMA_ARRAY, Big32(|v.props|) + body);
      HoldsParts(m, at + 1, Big32(|v.props|), body);
      MembersRead(wide, v.props, m, at + 5, size - 4);
    }
  }

  lemma {:induction false} StrictReads(wide: bool, v: Value, m: Memory, at: nat, size: nat)
    requires ValueOk(v) && v.StrictArray? && Holds(m, at, FullValue(v)) && size + 1 >= |FullValue(v)|
    ensures DecodeValue(wide, m, at + 1, size, m(at)) == Got(v, |FullValue(v)| - 1)
    decreases v, 0
  {
    hide MembersOk;
    hide FullAll;
    hide DecodeAll;
    hide DecodeArray;
    hide LongString;
    var body := FullAll(v.props);
    assert FullValue(v) == [STRICT_ARRAY] + (Big32(|v.props|) + body);
    HoldsFirst(m, at, STRICT_ARRAY, Big32(|v.props|) + body);
    HoldsParts(m, at + 1, Big32(|v.props|), body);
    Int32Reads(|v.props|, m, at + 1);
    ElementsRead(wide, v.props, m, at + 5, size - 4);
  }

  lemma {:induction false} PropReads(wide: bool, p: Prop, named: bool, m: Memory, at: nat, size: nat)
    requires PropOk(p, named) && Holds(m, at, Full(p)) && size >= |Full(p)|
    ensures DecodeProp(wide, m, at, size, named) == Got(p, |Full(p)|)
    decreases p, 0
  {
    hide DecodeValue;
    hide FullValue;
    FullNotEmpty(p, named);
    HoldsParts(m, at, NameBytes(p), FullValue(p.value));
    if named {
      HoldsParts(m, at, Big16(|p.name|), p.name);
      Int16Reads(|p.name|, m, at);
      HoldsSlice(m, at + 2, p.name);
    }
    var skip := |NameBytes(p)|;
    ValueReads(wide, p.value, m, at + skip, size - skip - 1);
  }

  lemma EndRead(wide: bool, m: Memory, at: nat, size: nat)
    requires Holds(m, at, END_MARK) && size >= 3
    ensures DecodeAll(wide, m, at, size, true) == Got([], 3)
  {
    assert m(at + 0) == END_MARK[0] && m(at + 1) == END_MARK[1] && m(at + 2) == END_MARK[2];
  }

  lemma {:induction false} MembersRead(wide: bool, props: seq<Prop>, m: Memory, at: nat, size: nat)
    requires MembersOk(props, true) && Holds(m, at, FullAll(props) + END_MARK) && size >= |FullAll(props)| + 3
    ensures DecodeAll(wide, m, at, size, true) == Got(props, |FullAll(props)| + 3)
    decreases props, 0
  {
    hide DecodeProp;
    hide DecodeAll;
    hide Read24;
    hide Full;
    hide PropOk;
    if props == [] {
      assert FullAll(props) + END_MARK == END_MARK;
      EndRead(wide, m, at, size);
    } else {
      var p, rest := props[0], FullAll(props[1..]) + END_MARK;
      FullAllMore(props);
      assert FullAll(props) + END_MARK == Full(p) + rest;
      HoldsParts(m, at, Full(p), rest);
      NotTheEnd(p, m, at);
      FullNotEmpty(p, true);
      PropReads(wide, p, true, m, at, size);
      AllNext(wide, m, at, size, true);
      MembersRead(wide, props[1..], m, at + |Full(p)|, size - |Full(p)|);
      assert [p] + props[1..] == props;
    }
  }

  /** A name that is not empty cannot be taken for the end mark. */
  lemma NotTheEnd(p: Prop, m: Memory, at: nat)
    requires PropOk(p, true) && Holds(m, at, Full(p))
    ensures Read24(m, at) != OBJECT_END
  {
    HoldsParts(m, at, NameBytes(p), FullValue(p.value));
    HoldsParts(m, at, Big16(|p.name|), p.name);
    Int16Reads(|p.name|, m, at);
  }

  lemma {:induction false} ElementsRead(wide: bool, props: seq<Prop>, m: Memory, at: nat, size: nat)
    requires MembersOk(props, false) && Holds(m, at, FullAll(props)) && size >= |FullAll(props)|
    ensures DecodeArray(wide, m, at, size, |props|, false) == Got(props, |FullAll(props)|)
    decreases props, 0
  {
    hide DecodeProp;
    hide Full;
    if props != [] {
      var p := props[0];
      FullAllMore(props);
      HoldsParts(m, at, Full(p), FullAll(props[1..]));
      FullNotEmpty(p, false);
      PropReads(wide, p, false, m, at, size);
      ArrayNext(wide, m, at, size, |props|);
      hide DecodeArray;
      ElementsRead(wide, props[1..], m, at + |Full(p)|, size - |Full(p)|);
      assert [p] + props[1..] == props;
    }
  }

  /**
    A property with a name is read back just when it is not null: a null is written without its name,
    and what follows it is then read for one.
   */
  lemma NameKept(wide: bool, p: Prop, m: Memory, at: nat, size: nat)
    requires ValueOk(p.value) && 0 < |p.name| < 0x1_0000 && Holds(m, at, Full(p)) && size >= |Full(p)|
    ensures DecodeProp(wide, m, at, size, true) == Got(p, |Full(p)|) <==> !p.value.Null?
  {
    if p.value.Null? {
      assert |Full(p)| == 1;
    } else {
      PropReads(wide, p, true, m, at, size);
    }
  }

  // ---------------------------------------------------------------- nothing behind the end

  /** Numbers of eight bytes, and lengths that are `int`s, at every depth; nothing about names. */
  predicate Sized(v: Value)
    decreases v, 1
  {
    match v
    case Number(bits) => |bits| == 8
    case Object(props) => AllSized(props)
    case EcmaArray(props) => AllSized(props)
    case StrictArray(props) => AllSized(props)
    case _ => true
  }

  predicate AllSized(props: seq<Prop>)
    decreases props, 0
  {
    props == [] || (PropSized(props[0]) && AllSized(props[1..]))
  }

  predicate PropSized(p: Prop)
    decreases p, 0
  {
    Sized(p.value)
  }

  /** Whatever the room, nothing is written behind the end of the buffer. */
  lemma {:induction false} PropInRoom(p: Prop, room: int)
    requires PropSized(p) && EncodeProp(p, room).Some?
    ensures 0 < |EncodeProp(p, room).value| <= room
    decreases p, 0
  {
    hide EncodeValue;
    ValueInRoom(p.value, room - |NameBytes(p)|);
  }

  lemma {:induction false} ValueInRoom(v: Value, room: int)
    requires Sized(v) && EncodeValue(v, room).Some?
    ensures 0 < |EncodeValue(v, room).value| <= room
    decreases v, 1
  {
    hide EncodeAll;
    match v
    case Object(props) => AllInRoom(props, room - 1);
    case EcmaArray(props) => AllInRoom(props, room - 5);
    case StrictArray(props) => AllInRoom(props, room - 5);
    case _ =>
  }

  lemma {:induction false} AllInRoom(props: seq<Prop>, room: int)
    requires AllSized(props) && room >= 0
    ensures |EncodeAll(props, room)| <= room
    decreases props, 0
  {
    hide EncodeProp;
    if props != [] && EncodeProp(props[0], room).Some? {
      PropInRoom(props[0], room);
      AllInRoom(props[1..], room - |EncodeProp(props[0], room).value|);
    }
  }

  // ---------------------------------------------------------------- how much room is needed

  function Max(a: nat, b: nat): nat {
    if a < b then b else a
  }

  /** Only types that can be encoded, at every depth. */
  predicate Known(v: Value)
    decreases v, 1
  {
    match v
    case Object(props) => AllKnown(props)
    case EcmaArray(props) => AllKnown(props)
    case StrictArray(props) => AllKnown(props)
    case _ => v.Number? || v.Boolean? || v.Str? || v.Null?
  }

  predicate AllKnown(props: seq<Prop>)
    decreases props, 0
  {
    props == [] || (PropKnown(props[0]) && AllKnown(props[1..]))
  }

  predicate PropKnown(p: Prop)
    decreases p, 0
  {
    Known(p.value)
  }

  /**
    The least room for a property.  The test in front of its name asks for four bytes beside the name, and
    some of the tests in front of values ask for more than the value takes.
   */
  function Need(p: Prop): nat
    decreases p, 0
  {
    Max(if p.value.Null? then 0 else |p.name| + 4, |NameBytes(p)| + NeedValue(p.value))
  }

  function NeedValue(v: Value): nat
    decreases v, 1
  {
    match v
    case Number(_) => 9
    case Boolean(_) => 2
    case Str(s) => |s| + 5
    case Null => 2
    case Object(props) => Max(|FullValue(v)| + 1, 1 + NeedAll(props))
    case EcmaArray(props) => Max(|FullValue(v)| + 1, 5 + NeedAll(props))
    case StrictArray(props) => 5 + NeedAll(props)
    case _ => 0
  }

  function NeedAll(props: seq<Prop>): nat
    decreases props, 0
  {
    if props == [] then 0 else Max(Need(props[0]), |Full(props[0])| + NeedAll(props[1..]))
  }

  /** All of it, or less. */
  predicate AllOrLess(r: Option<seq<byte>>, all: seq<byte>, enough: bool) {
    (r == Some(all) <==> enough) && (r.Some? && !enough ==> |r.value| < |all|)
  }

  /**
    Exactly how much room is needed: a property is encoded in full just when there is that much.  With
    less there is no result or, where an object or array has lost members, a shorter one.
   */
  lemma {:induction false} EncodedInFull(p: Prop, room: int)
    requires PropSized(p) && PropKnown(p)
    ensures AllOrLess(EncodeProp(p, room), Full(p), room >= Need(p))
    decreases p, 0
  {
    hide EncodeValue;
    hide FullValue;
    hide NeedValue;
    hide Known;
    NoneInvalid(p.value);
    ValueInFull(p.value, room - |NameBytes(p)|);
    var r := EncodeValue(p.value, room - |NameBytes(p)|);
    if r.Some? && |r.value| == |FullValue(p.value)| {
      assert r.value == FullValue(p.value);
    }
  }

  lemma FullIsSome(p: Prop)
    requires PropSized(p) && PropKnown(p)
    ensures Full(p) != []
  {
    KnownLength(p.value);
  }

  lemma NoneInvalid(v: Value)
    requires Known(v)
    ensures !v.Invalid?
  {
  }

  lemma {:induction false} ValueInFull(v: Value, room: int)
    requires Sized(v) && Known(v)
    ensures AllOrLess(EncodeValue(v, room), FullValue(v), room >= NeedValue(v))
    decreases v, 1
  {
    hide FullAll;
    hide EncodeAll;
    hide NeedAll;
    match v
    case Object(props) =>
      if room > 4 {
        AllInFull(props, room - 1);
      }
    case EcmaArray(props) =>
      if room > 4 {
        AllInFull(props, room - 5);
      }
    case StrictArray(props) =>
      if room > 4 {
        AllInFull(props, room - 5);
      }
    case _ =>
  }

  lemma {:induction false} AllInFull(props: seq<Prop>, room: nat)
    requires AllSized(props) && AllKnown(props)
    ensures EncodeAll(props, room) == FullAll(props) <==> room >= NeedAll(props)
    ensures room < NeedAll(props) ==> |EncodeAll(props, room)| < |FullAll(props)|
    decreases props, 0
  {
    hide EncodeProp;
    hide Full;
    hide Need;
    if props != [] {
      var p, rest := props[0], props[1..];
      EncodedInFull(p, room);
      var r := EncodeProp(p, room);
      if r.Some? {
        PropInRoom(p, room);
        AllInFull(rest, room - |r.value|);
        assert EncodeAll(props, room) == r.value + EncodeAll(rest, room - |r.value|);
      } else {
        FullIsSome(p);
      }
    }
  }

  /** The room needed is little more than the encoding takes, however deep the value is nested. */
  lemma {:induction false} NeedIsLittle(p: Prop)
    requires PropSized(p) && PropKnown(p)
    ensures Need(p) <= |Full(p)| + 2
    decreases p, 0
  {
    ValueNeedIsLittle(p.value);
    KnownLength(p.value);
    hide NeedValue;
    hide FullValue;
  }

  lemma KnownLength(v: Value)
    requires Sized(v) && Known(v)
    ensures |FullValue(v)| >= if v.Null? then 1 else 2
  {
  }

  lemma {:induction false} ValueNeedIsLittle(v: Value)
    requires Sized(v) && Known(v)
    ensures NeedValue(v) <= |FullValue(v)| + 2
    decreases v, 1
  {
    hide FullAll;
    hide NeedAll;
    match v
    case Object(props) => AllNeedIsLittle(props);
    case EcmaArray(props) => AllNeedIsLittle(props);
    case StrictArray(props) => AllNeedIsLittle(props);
    case _ =>
  }

  lemma {:induction false} AllNeedIsLittle(props: seq<Prop>)
    requires AllSized(props) && AllKnown(props)
    ensures NeedAll(props) <= |FullAll(props)| + 2
    decreases props, 0
  {
    hide Need;
    hide Full;
    if props != [] {
      NeedIsLittle(props[0]);
      AllNeedIsLittle(props[1..]);
    }
  }

  lemma {:induction false} OkIsKnown(v: Value)
    requires ValueOk(v)
    ensures Sized(v) && Known(v)
    decreases v, 1
  {
    match v
    case Object(props) => MembersAreKnown(props, true);
    case EcmaArray(props) => MembersAreKnown(props, true);
    case StrictArray(props) => MembersAreKnown(props, false);
    case _ =>
  }

  lemma {:induction false} MembersAreKnown(props: seq<Prop>, named: bool)
    requires MembersOk(props, named)
    ensures AllSized(props) && AllKnown(props)
    decreases props, 0
  {
    if props != [] {
      OkIsKnown(props[0].value);
      MembersAreKnown(props[1..], named);
    }
  }

  /** Encoding with just the room that is needed, then decoding. */
  lemma RoundTrip(wide: bool, p: Prop, named: bool, room: int, m: Memory, at: nat, size: nat)
    requires PropOk(p, named) && room >= Need(p) && size >= |Full(p)|
    requires EncodeProp(p, room).Some? ==> Holds(m, at, EncodeProp(p, room).value)
    ensures EncodeProp(p, room).Some?
    ensures DecodeProp(wide, m, at, size, named) == Got(p, |EncodeProp(p, room).value|)
  {
    OkIsKnown(p.value);
    EncodedInFull(p, room);
    PropReads(wide, p, named, m, at, size);
  }

  /** An object whose first member does not fit is not refused: it is encoded as the empty object. */
  lemma RoomRunsOut(props: seq<Prop>, room: int)
    requires props != [] && room > 4 && EncodeProp(props[0], room - 1).None?
    ensures EncodeValue(Object(props), room) == Some(FullValue(Object([])))
  {
    assert [OBJECT] + [] + END_MARK == [OBJECT] + FullAll([]) + END_MARK;
  }

  // ---------------------------------------------------------------- what decoding depends on

  ghost predicate Agree(m: Memory, n: Memory, at: nat, size: int) {
    forall i :: at <= i < at + size ==> m(i) == n(i)
  }

  /** No result, or one that the caller refuses because it uses more than there is. */
  predicate Refused<T>(r: Decoded<T>, size: int) {
    !r.Got? || r.used > size
  }

  /** The same result, or on both sides one that is refused. */
  predicate Alike<T(==)>(r: Decoded<T>, s: Decoded<T>, size: int) {
    r == s || (Refused(r, size) && Refused(s, size))
  }

  lemma SliceAgrees(m: Memory, n: Memory, at: nat, k: nat)
    requires Agree(m, n, at, k)
    ensures Slice(m, at, k) == Slice(n, at, k)
  {
  }

  /**
    The length fields are read before they are known to lie in the buffer, and an array can use up to 4
    bytes more than it has; but all that comes of it is a result that is refused.
   */
  lemma {:induction false} ValueIsLocal(m: Memory, n: Memory, at: nat, size: nat, kind: byte)
    requires Agree(m, n, at, size)
    ensures Alike(DecodeValue(true, m, at, size, kind), DecodeValue(true, n, at, size, kind), size)
    decreases size, 2
  {
    hide DecodeAll;
    hide DecodeArray;
    hide Slice;
    hide Read32;
    hide Read16;
    if kind == STRING || kind == LONG_STRING || kind == XML_DOC {
      StringIsLocal(m, n, at, size, kind);
    } else if kind == NUMBER && size >= 8 {
      SliceAgrees(m, n, at, 8);
    } else if kind == OBJECT {
      AllIsLocal(m, n, at, size, true);
    } else if kind == ECMA_ARRAY {
      AllIsLocal(m, n, at + 4, size - 4, true);
    } else if kind == STRICT_ARRAY {
      if size >= 4 {
        Read32Agrees(m, n, at, size);
        ArrayIsLocal(m, n, at + 4, size - 4, Signed(Read32(m, at)));
      }
    } else if kind == DATE && size >= 10 {
      SliceAgrees(m, n, at, 8);
      Read16Agrees(m, n, at, 8, size);
    }
  }

  lemma Read16Agrees(m: Memory, n: Memory, at: nat, k: nat, size: int)
    requires Agree(m, n, at, size) && k + 2 <= size
    ensures Read16(m, at + k) == Read16(n, at + k)
  {
  }

  lemma Read32Agrees(m: Memory, n: Memory, at: nat, size: int)
    requires Agree(m, n, at, size) && 4 <= size
    ensures Read32(m, at) == Read32(n, at)
  {
  }

  lemma StringIsLocal(m: Memory, n: Memory, at: nat, size: nat, kind: byte)
    requires Agree(m, n, at, size) && (kind == STRING || kind == LONG_STRING || kind == XML_DOC)
    ensures Alike(DecodeValue(true, m, at, size, kind), DecodeValue(true, n, at, size, kind), size)
  {
    hide DecodeAll;
    hide DecodeArray;
    hide Slice;
    hide Read32;
    hide Read16;
    if kind == STRING {
      if size >= 2 {
        Read16Agrees(m, n, at, 0, size);
        if size >= Read16(m, at) + 2 {
          SliceAgrees(m, n, at + 2, Read16(m, at));
        }
      }
    } else if size >= 4 {
      Read32Agrees(m, n, at, size);
      if size >= Read32(m, at) + 4 {
        SliceAgrees(m, n, at + 4, Read32(m, at));
      }
    }
  }

  lemma {:induction false} PropIsLocal(m: Memory, n: Memory, at: nat, size: nat, named: bool)
    requires Agree(m, n, at, size)
    ensures Alike(DecodeProp(true, m, at, size, named), DecodeProp(true, n, at, size, named), size)
    decreases size, 0
  {
    hide DecodeValue;
    hide Slice;
    if size > 0 && !(named && size < 4) && !(named && Read16(m, at) > size - 2) {
      var skip := if named then 2 + Read16(m, at) else 0;
      if named {
        SliceAgrees(m, n, at + 2, Read16(m, at));
      }
      if size > skip {
        ValueIsLocal(m, n, at + skip + 1, size - skip - 1, m(at + skip));
      }
    }
  }

  lemma AllNext(wide: bool, m: Memory, at: nat, size: nat, named: bool)
    requires size > 0 && DecodeProp(wide, m, at, size, named).Got?
    requires 0 < DecodeProp(wide, m, at, size, named).used <= size
    ensures var (p, used) := (DecodeProp(wide, m, at, size, named).value, DecodeProp(wide, m, at, size, named).used);
            DecodeAll(wide, m, at, size, named)
            == if size >= 3 && Read24(m, at) == OBJECT_END then Got([], 3) else
               match DecodeAll(wide, m, at + used, size - used, named)
               case Error => Error
               case Astray => Astray
               case Got(props, more) => Got([p] + props, used + more)
  {
    hide DecodeProp;
  }

  lemma AllStops(wide: bool, m: Memory, at: nat, size: int, named: bool)
    requires size <= 0 || Refused(DecodeProp(wide, m, at, size, named), size)
    ensures DecodeAll(wide, m, at, size, named)
         == if size <= 0 then Got([], 0)
            else if size >= 3 && Read24(m, at) == OBJECT_END then Got([], 3)
            else if DecodeProp(wide, m, at, size, named).Astray? then Astray
            else Error
  {
    hide DecodeProp;
  }

  /** Where `long` has 64 bits, `AMF_Decode` depends on nothing but the bytes of its buffer, an error included. */
  lemma {:induction false} AllIsLocal(m: Memory, n: Memory, at: nat, size: int, named: bool)
    requires Agree(m, n, at, size)
    ensures DecodeAll(true, m, at, size, named) == DecodeAll(true, n, at, size, named)
    decreases Positive(size), 1
  {
    hide DecodeProp;
    hide DecodeAll;
    hide Read24;
    if size <= 0 {
      AllStops(true, m, at, size, named);
      AllStops(true, n, at, size, named);
    } else {
      PropIsLocal(m, n, at, size, named);
      if size >= 3 {
        Read24Agrees(m, n, at, size);
      }
      var r := DecodeProp(true, m, at, size, named);
      if Refused(r, size) {
        AllStops(true, m, at, size, named);
        AllStops(true, n, at, size, named);
      } else {
        AllNext(true, m, at, size, named);
        AllNext(true, n, at, size, named);
        AllIsLocal(m, n, at + r.used, size - r.used, named);
      }
    }
  }

  lemma Read24Agrees(m: Memory, n: Memory, at: nat, size: int)
    requires Agree(m, n, at, size) && 3 <= size
    ensures Read24(m, at) == Read24(n, at)
  {
  }

  lemma RefusedOn(wide: bool, m: Memory, at: nat, size: nat, count: int)
    requires count > 0 && size > 0 && Refused(DecodeProp(wide, m, at, size, false), size)
    ensures Refused(DecodeArray(wide, m, at, size, count, false), size)
  {
    hide DecodeProp;
  }

  lemma ArrayNext(wide: bool, m: Memory, at: nat, size: nat, count: int)
    requires count > 0 && size > 0
    requires DecodeProp(wide, m, at, size, false).Got? && DecodeProp(wide, m, at, size, false).used > 0
    ensures var (p, used) := (DecodeProp(wide, m, at, size, false).value, DecodeProp(wide, m, at, size, false).used);
            DecodeArray(wide, m, at, size, count, false)
            == match DecodeArray(wide, m, at + used, size - used, count - 1, false)
               case Error => Error
               case Astray => Astray
               case Got(props, more) => Got([p] + props, used + more)
  {
    hide DecodeProp;
  }

  lemma ArrayDone(wide: bool, m: Memory, at: nat, size: nat, count: int)
    requires count <= 0 || size == 0
    ensures DecodeArray(wide, m, at, size, count, false) == if count <= 0 then Got([], 0) else Error
  {
  }

  lemma {:induction false} ArrayIsLocal(m: Memory, n: Memory, at: nat, size: nat, count: int)
    requires Agree(m, n, at, size)
    ensures Alike(DecodeArray(true, m, at, size, count, false), DecodeArray(true, n, at, size, count, false), size)
    decreases size, 1
  {
    hide DecodeProp;
    hide DecodeArray;
    if count <= 0 || size == 0 {
      ArrayDone(true, m, at, size, count);
      ArrayDone(true, n, at, size, count);
    } else {
      PropIsLocal(m, n, at, size, false);
      var r, s := DecodeProp(true, m, at, size, false), DecodeProp(true, n, at, size, false);
      if Refused(r, size) {
        RefusedOn(true, m, at, size, count);
        RefusedOn(true, n, at, size, count);
      } else {
        ArrayNext(true, m, at, size, count);
        ArrayNext(true, n, at, size, count);
        ArrayIsLocal(m, n, at + r.used, size - r.used, count - 1);
      }
    }
  }

  // ---------------------------------------------------------------- the width of a long

  /** No string in the buffer says that it has 2^31 bytes or more. */
  ghost predicate NoneBeyond(m: Memory, at: nat, size: int) {
    forall i :: at <= i < at + size && (m(i) == LONG_STRING || m(i) == XML_DOC) ==> m(i + 1) < 128
  }

  /** Exactly when the width matters for a string: its length is negative as a `long` of 32 bits and let through. */
  lemma StringWidth(m: Memory, at: nat, size: nat, kind: byte)
    ensures LongString(false, m, at, size, kind) == LongString(true, m, at, size, kind)
            <==> Signed(Read32(m, at)) >= 0 || size < Signed(Read32(m, at)) + 4
  {
    hide Slice;
    hide Read32;
    var n := Read32(m, at);
    assert n >= 0;
    if Signed(n) < 0 && size >= Signed(n) + 4 {
      assert LongString(false, m, at, size, kind) == Got(Beyond(n), 4 + Signed(n));
    }
  }

  lemma SmallLength(m: Memory, at: nat)
    requires m(at) < 128
    ensures Signed(Read32(m, at)) >= 0
  {
  }

  lemma {:induction false} ValueWidth(m: Memory, at: nat, size: nat, kind: byte)
    requires NoneBeyond(m, at, size) && ((kind == LONG_STRING || kind == XML_DOC) ==> m(at) < 128)
    ensures DecodeValue(false, m, at, size, kind) == DecodeValue(true, m, at, size, kind)
    decreases size, 2
  {
    hide DecodeAll;
    hide DecodeArray;
    hide LongString;
    hide Slice;
    hide Read16;
    if kind == LONG_STRING || kind == XML_DOC {
      SmallLength(m, at);
      StringWidth(m, at, size, kind);
    } else if kind == OBJECT {
      AllWidth(m, at, size, true);
    } else if kind == ECMA_ARRAY {
      AllWidth(m, at + 4, size - 4, true);
    } else if kind == STRICT_ARRAY {
      ArrayWidth(m, at + 4, size - 4, Signed(Read32(m, at)));
    }
  }

  lemma {:induction false} PropWidth(m: Memory, at: nat, size: nat, named: bool)
    requires NoneBeyond(m, at, size)
    ensures DecodeProp(false, m, at, size, named) == DecodeProp(true, m, at, size, named)
    decreases size, 0
  {
    hide DecodeValue;
    hide Slice;
    var skip := if named then 2 + Read16(m, at) else 0;
    if size > skip {
      ValueWidth(m, at + skip + 1, size - skip - 1, m(at + skip));
    }
  }

  lemma NoneBeyondRest(m: Memory, at: nat, size: nat, k: nat)
    requires NoneBeyond(m, at, size)
    ensures NoneBeyond(m, at + k, size - k)
  {
  }

  /** With no such length in the buffer, decoding is the same for a `long` of 32 bits. */
  lemma {:induction false} AllWidth(m: Memory, at: nat, size: int, named: bool)
    requires NoneBeyond(m, at, size)
    ensures DecodeAll(false, m, at, size, named) == DecodeAll(true, m, at, size, named)
    decreases Positive(size), 1
  {
    hide DecodeProp;
    hide DecodeAll;
    hide Read24;
    hide NoneBeyond;
    if size <= 0 {
      AllStops(false, m, at, size, named);
      AllStops(true, m, at, size, named);
    } else {
      PropWidth(m, at, size, named);
      var r := DecodeProp(true, m, at, size, named);
      if r.Got? && r.used <= size {
        AllNext(false, m, at, size, named);
        AllNext(true, m, at, size, named);
        NoneBeyondRest(m, at, size, r.used);
        AllWidth(m, at + r.used, size - r.used, named);
      } else {
        AllStops(false, m, at, size, named);
        AllStops(true, m, at, size, named);
      }
    }
  }

  lemma {:induction false} ArrayWidth(m: Memory, at: nat, size: int, count: int)
    requires NoneBeyond(m, at, size)
    ensures DecodeArray(false, m, at, size, count, false) == DecodeArray(true, m, at, size, count, false)
    decreases Positive(size), 1
  {
    hide DecodeProp;
    hide DecodeArray;
    hide NoneBeyond;
    if count <= 0 || size <= 0 {
      ArrayEnds(m, at, size, count);
    } else {
      PropWidth(m, at, size, false);
      var r := DecodeProp(true, m, at, size, false);
      if r.Got? {
        ArrayNext(false, m, at, size, count);
        ArrayNext(true, m, at, size, count);
        NoneBeyondRest(m, at, size, r.used);
        ArrayWidth(m, at + r.used, size - r.used, count - 1);
      } else {
        ArrayFails(false, m, at, size, count);
        ArrayFails(true, m, at, size, count);
      }
    }
  }

  lemma ArrayEnds(m: Memory, at: nat, size: int, count: int)
    requires count <= 0 || size <= 0
    ensures DecodeArray(false, m, at, size, count, false) == DecodeArray(true, m, at, size, count, false)
  {
  }

  lemma ArrayFails(wide: bool, m: Memory, at: nat, size: nat, count: int)
    requires count > 0 && size > 0 && DecodeProp(wide, m, at, size, false) == Error
    ensures DecodeArray(wide, m, at, size, count, false) == Error
  {
    hide DecodeProp;
  }

  /**
    A long string of length 0xFFFFFFFB: with a `long` of 32 bits it uses no byte at all, so that the loop
    comes to it again and again; with one of 64 bits it is an error.
   */
  lemma EndlessString(m: Memory, at: nat, size: nat)
    requires size > 0 && Holds(m, at, [LONG_STRING, 255, 255, 255, 251]) && size < 0x8000_0000
    ensures DecodeProp(false, m, at, size, false) == Got(Prop([], Beyond(0xFFFF_FFFB)), 0)
    ensures DecodeAll(false, m, at, size, false) == Astray && DecodeAll(true, m, at, size, false) == Error
  {
    var b: seq<byte> := [LONG_STRING, 255, 255, 255, 251];
    assert m(at + 0) == b[0] && m(at + 1) == b[1] && m(at + 2) == b[2] && m(at + 3) == b[3] && m(at + 4) == b[4];
    assert Read32(m, at + 1) == 0xFFFF_FFFB;
    hide Read32;
    hide DecodeAll;
    assert LongString(false, m, at + 1, size - 1, LONG_STRING) == Got(Beyond(0xFFFF_FFFB), -1);
    assert LongString(true, m, at + 1, size - 1, LONG_STRING) == Error;
    EndlessProp(m, at, size);
    NotAnEnd(m, at, size);
  }

  lemma EndlessProp(m: Memory, at: nat, size: nat)
    requires size > 0 && m(at) == LONG_STRING
    ensures DecodeProp(false, m, at, size, false)
         == match LongString(false, m, at + 1, size - 1, LONG_STRING)
            case Error => Error
            case Astray => Astray
            case Got(v, used) => Got(Prop([], v), 1 + used)
    ensures LongString(true, m, at + 1, size - 1, LONG_STRING) == Error ==>
              DecodeProp(true, m, at, size, false) == Error
  {
    hide LongString;
    hide DecodeAll;
    hide DecodeArray;
  }

  lemma NotAnEnd(m: Memory, at: nat, size: nat)
    requires size > 0 && m(at) == LONG_STRING
    requires DecodeProp(false, m, at, size, false).Got? && DecodeProp(false, m, at, size, false).used == 0
    requires DecodeProp(true, m, at, size, false) == Error
    ensures DecodeAll(false, m, at, size, false) == Astray && DecodeAll(true, m, at, size, false) == Error
  {
    hide DecodeProp;
  }

  // ---------------------------------------------------------------- lists of values

  /** A number whose highest two bytes are 0 and 9: its encoding begins like an end mark. */
  predicate LooksLikeEnd(p: Prop) {
    p.value.Number? && |p.value.bits| == 8 && p.value.bits[7] == 0 && p.value.bits[6] == OBJECT_END
  }

  lemma FirstBytes(p: Prop, m: Memory, at: nat)
    requires PropOk(p, false) && Holds(m, at, Full(p))
    ensures Read24(m, at) == OBJECT_END <==> LooksLikeEnd(p)
  {
    var b := FullValue(p.value);
    assert Full(p) == b;
    FullNotEmpty(p, false);
    assert m(at + 0) == b[0];
    if p.value.Number? {
      assert m(at + 1) == b[1] && m(at + 2) == b[2];
    }
  }

  /**
    A list of values without names and without an end mark, as calls are sent, is read back in full just
    when no number in it looks like an end mark; reading stops there otherwise.
   */
  lemma {:induction false} ListReads(wide: bool, props: seq<Prop>, m: Memory, at: nat)
    requires MembersOk(props, false) && Holds(m, at, FullAll(props))
    ensures DecodeAll(wide, m, at, |FullAll(props)|, false) == Got(props, |FullAll(props)|)
            <==> forall k :: 0 <= k < |props| ==> !LooksLikeEnd(props[k])
    decreases props
  {
    hide DecodeProp;
    hide DecodeAll;
    hide Full;
    hide LooksLikeEnd;
    hide Read24;
    if props == [] {
      AllStops(wide, m, at, 0, false);
    } else {
      var p, size := props[0], |FullAll(props)|;
      FullAllMore(props);
      HoldsParts(m, at, Full(p), FullAll(props[1..]));
      FullNotEmpty(p, false);
      PropReads(wide, p, false, m, at, size);
      FirstBytes(p, m, at);
      NumberLength(p);
      ListReads(wide, props[1..], m, at + |Full(p)|);
      AllNext(wide, m, at, size, false);
      LooksShift(props);
      assert props == [p] + props[1..];
    }
  }

  lemma LooksShift(props: seq<Prop>)
    requires props != []
    ensures (forall k :: 0 <= k < |props| ==> !LooksLikeEnd(props[k]))
            <==> !LooksLikeEnd(props[0]) && (forall k :: 0 <= k < |props[1..]| ==> !LooksLikeEnd(props[1..][k]))
  {
    hide LooksLikeEnd;
    if !LooksLikeEnd(props[0]) && (forall k :: 0 <= k < |props[1..]| ==> !LooksLikeEnd(props[1..][k])) {
      forall k | 0 <= k < |props|
        ensures !LooksLikeEnd(props[k])
      {
        if k > 0 {
          assert props[k] == props[1..][k - 1];
        }
      }
    }
  }

  lemma NumberLength(p: Prop)
    requires PropOk(p, false)
    ensures LooksLikeEnd(p) ==> |Full(p)| == 9
  {
  }
}
