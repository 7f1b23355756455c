/**
  The AMF0 codec (rtmp_lib/amf.c) as it runs: an output pointer that moves through a buffer, and decode
  loops over a pointer, a remaining size and a growing list.
 */
module AmfCodec {
  import opened Common
  import opened AmfModel

  import opened AmfRoundTrip

  // ---------------------------------------------------------------- encoding

  /** NULL, or the pointer behind what was written. */
  datatype Pointer = NullPointer | To(pos: nat)

  /** What an encoder has done with the part of the buffer from `pos` to `end`. */
  twostate predicate Wrote(a: array<byte>, pos: nat, end: nat, b: Option<seq<byte>>, next: Pointer)
    requires pos <= end <= a.Length
    reads a
  {
    && Untouched(a, pos, end)
    && match b
       case None => next == NullPointer
       case Some(bytes) => pos + |bytes| <= end && next == To(pos + |bytes|) && a[..][pos..pos + |bytes|] == bytes
  }

  /** One of the encoders without a loop, with the bytes that it writes if there is room. */
  method Put(b: Option<seq<byte>>, a: array<byte>, pos: nat, end: nat) returns (next: Pointer)
    requires pos <= end <= a.Length && (b.Some? ==> pos + |b.value| <= end)
    modifies a
    ensures Wrote(a, pos, end, b, next)
  {
    match b
    case None => next := NullPointer;
    case Some(bytes) =>
      Copy(a, pos, bytes);
      next := To(pos + |bytes|);
  }

  /** `AMFProp_Encode` */
  method EncodePropTo(p: Prop, a: array<byte>, pos: nat, end: nat) returns (next: Pointer)
    requires pos <= end <= a.Length && PropSized(p)
    modifies a
    ensures Wrote(a, pos, end, EncodeProp(p, end - pos), next)
    decreases p, 0
  {
    hide EncodeValue;
    if p.value.Invalid? || (!p.value.Null? && pos + |p.name| + 2 + 1 >= end) {
      return NullPointer;
    }
    var at := NameTo(p, a, pos);
    ghost var name, was := NameBytes(p), a[..];
    next := EncodeValueTo(p.value, a, at, end);
    Kept(was, a[..], pos, at);
    if next.To? {
      Joins(a[..], pos, at, next.pos);
    }
  }

  /** The name and its length in front of a value, if there is to be one. */
  method NameTo(p: Prop, a: array<byte>, pos: nat) returns (at: nat)
    requires pos + |NameBytes(p)| <= a.Length
    modifies a
    ensures at == pos + |NameBytes(p)| && Untouched(a, pos, at) && a[..][pos..at] == NameBytes(p)
  {
    at := pos;
    if !p.value.Null? && p.name != [] {
      Copy(a, at, Big16(|p.name|));
      at := at + 2;
      ghost var was := a[..];
      Copy(a, at, p.name);
      Kept(was, a[..], pos, at);
      Joins(a[..], pos, at, at + |p.name|);
      at := at + |p.name|;
    }
  }

  /** What lies before the part that was written stays. */
  lemma Kept(x: seq<byte>, y: seq<byte>, pos: nat, at: nat)
    requires pos <= at <= |x| == |y| && forall i :: 0 <= i < at ==> x[i] == y[i]
    ensures x[pos..at] == y[pos..at]
  {
  }

  lemma Joins(x: seq<byte>, pos: nat, at: nat, next: nat)
    requires pos <= at <= next <= |x|
    ensures x[pos..next] == x[pos..at] + x[at..next]
  {
  }

  /** The type byte and what it says, without the name. */
  method EncodeValueTo(v: Value, a: array<byte>, pos: nat, end: nat) returns (next: Pointer)
    requires pos <= end <= a.Length && Sized(v)
    modifies a
    ensures Wrote(a, pos, end, EncodeValue(v, end - pos), next)
    decreases v, 1
  {
    hide EncodeAll;
    match v
    case Object(props) => next := EncodeListTo([OBJECT], props, true, a, pos, end);
    case EcmaArray(props) => next := EncodeListTo([ECMA_ARRAY] + Big32(|props|), props, true, a, pos, end);
    case StrictArray(props) => next := EncodeListTo([STRICT_ARRAY] + Big32(|props|), props, false, a, pos, end);
    case _ => next := Put(EncodeValue(v, end - pos), a, pos, end);
  }

  /** What an object or an array comes to: its head, its members as far as they go, and its end mark. */
  function ListBytes(head: seq<byte>, props: seq<Prop>, ended: bool, room: int): Option<seq<byte>> {
    var b := head + EncodeAll(props, room - |head|);
    if 4 >= room then None else if ended then Ended(b, room) else Some(b)
  }

  /** `AMF_Encode`, `AMF_EncodeEcmaArray` and `AMF_EncodeArray`: the loop over the properties. */
  method EncodeListTo(head: seq<byte>, props: seq<Prop>, ended: bool, a: array<byte>, pos: nat, end: nat)
    returns (next: Pointer)
    requires pos <= end <= a.Length && AllSized(props) && |head| <= 5
    modifies a
    ensures Wrote(a, pos, end, ListBytes(head, props, ended, end - pos), next)
    decreases props, 1
  {
    hide EncodeAll;
    if pos + 4 >= end {
      return NullPointer;
    }
    var at := MembersTo(head, props, a, pos, end);
    if !ended {
      return To(at);
    }
    if at + 3 >= end {
      return NullPointer;
    }
    ghost var was := a[..];
    Copy(a, at, END_MARK);
    Kept(was, a[..], pos, at);
    Joins(a[..], pos, at, at + 3);
    return To(at + 3);
  }

  /** The head, and the loop over the properties. */
  method MembersTo(head: seq<byte>, props: seq<Prop>, a: array<byte>, pos: nat, end: nat) returns (at: nat)
    requires pos + |head| <= end <= a.Length && AllSized(props)
    modifies a
    ensures Untouched(a, pos, end) && pos <= at <= end
    ensures a[..][pos..at] == head + EncodeAll(props, end - pos - |head|)
    decreases props, 0
  {
    hide EncodeProp;
    hide PropSized;
    hide EncodeAll;
    hide AllSized;
    Copy(a, pos, head);
    at := pos + |head|;
    var i := 0;
    ghost var done: seq<byte>, all := [], EncodeAll(props, end - pos - |head|);
    assert props[0..] == props && head + done == head && done + all == all;
    while i < |props|
      invariant i <= |props| && pos + |head| <= at <= end && AllSized(props[i..])
      invariant Untouched(a, pos, end)
      invariant a[..][pos..at] == head + done
      invariant all == done + EncodeAll(props[i..], end - at)
    {
      NextProp(props, i, end - at);
      ghost var rest, room := EncodeAll(props[i..], end - at), end - at;
      var res := AppendProp(props[i], a, pos, at, end);
      if res == NullPointer {
        assert done + [] == done;
        return;
      }
      ghost var b := EncodeProp(props[i], room).value;
      OneMore(head, done, b, EncodeAll(props[i + 1..], room - |b|));
      done := done + b;
      at := res.pos;
      i := i + 1;
    }
    NoMoreProps(props, i, end - at);
    assert done + [] == done;
  }

  /** A property behind what was written from `pos` on. */
  method AppendProp(p: Prop, a: array<byte>, pos: nat, at: nat, end: nat) returns (next: Pointer)
    requires pos <= at <= end <= a.Length && PropSized(p)
    modifies a
    ensures Untouched(a, at, end)
    ensures match EncodeProp(p, end - at)
            case None => next == NullPointer && a[..][pos..at] == old(a[..][pos..at])
            case Some(b) =>
              next == To(at + |b|) && at + |b| <= end && a[..][pos..at + |b|] == old(a[..][pos..at]) + b
    decreases p, 1
  {
    hide EncodeProp;
    ghost var was := a[..];
    next := EncodePropTo(p, a, at, end);
    Kept(was, a[..], pos, at);
    if next.To? {
      Joins(a[..], pos, at, next.pos);
    }
  }

  lemma NextProp(props: seq<Prop>, i: nat, room: int)
    requires i < |props| && AllSized(props[i..])
    ensures PropSized(props[i]) && AllSized(props[i + 1..])
    ensures EncodeAll(props[i..], room) == match EncodeProp(props[i], room)
                                           case None => []
                                           case Some(b) => b + EncodeAll(props[i + 1..], room - |b|)
  {
    hide EncodeProp;
    hide PropSized;
    assert props[i..][0] == props[i] && props[i..][1..] == props[i + 1..];
  }

  lemma NoMoreProps(props: seq<Prop>, i: nat, room: int)
    requires i == |props|
    ensures EncodeAll(props[i..], room) == []
  {
  }

  lemma OneMore(head: seq<byte>, done: seq<byte>, b: seq<byte>, rest: seq<byte>)
    ensures done + (b + rest) == done + b + rest && head + done + b == head + (done + b)
  {
    assert done + (b + rest) == done + b + rest;
  }

  // ---------------------------------------------------------------- decoding

  /** `AMFProp_Decode` */
  method DecodePropFrom(wide: bool, m: Memory, at: nat, size: nat, named: bool) returns (r: Decoded<Prop>)
    ensures r == DecodeProp(wide, m, at, size, named)
    decreases size, 0
  {
    hide DecodeValue;
    var p: nat, nSize: int, name: seq<byte> := at, size, [];
    if nSize == 0 || (named && nSize < 4) {
      return Error;
    }
    if named {
      var nameSize := Read16(m, p);
      if nameSize > nSize - 2 {
        return Error;
      }
      name := Slice(m, p + 2, nameSize);
      nSize := nSize - (2 + nameSize);
      p := p + 2 + nameSize;
    }
    if nSize == 0 {
      return Error;
    }
    nSize := nSize - 1;
    var kind := m(p);
    p := p + 1;
    var v := DecodeValueFrom(wide, m, p, nSize, kind);
    if v.Error? {
      return Error;
    }
    if v.Astray? {
      return Astray;
    }
    nSize := nSize - v.used;
    return Got(Prop(name, v.value), size - nSize);
  }

  /** The `switch` of `AMFProp_Decode`; the size can go below 0. */
  method DecodeValueFrom(wide: bool, m: Memory, at: nat, size: nat, kind: byte) returns (r: Decoded<Value>)
    ensures r == DecodeValue(wide, m, at, size, kind)
    decreases size, 2
  {
    hide DecodeValue;
    hide DecodeAll;
    hide DecodeArray;
    ObjectKinds(wide, m, at, size);
    var nSize: int := size;
    if kind == OBJECT {
      var list := DecodeFrom(wide, m, at, nSize, true);
      if list.Error? { return Error; }
      if list.Astray? { return Astray; }
      nSize := nSize - list.used;
      return Got(Object(list.value), size - nSize);
    }
    if kind == ECMA_ARRAY {
      nSize := nSize - 4;
      var list := DecodeFrom(wide, m, at + 4, nSize, true);
      if list.Error? { return Error; }
      if list.Astray? { return Astray; }
      nSize := nSize - list.used;
      return Got(EcmaArray(list.value), size - nSize);
    }
    if kind == STRICT_ARRAY {
      var count := Signed(Read32(m, at));
      nSize := nSize - 4;
      var list := DecodeArrayFrom(wide, m, at + 4, nSize, count, false);
      if list.Error? { return Error; }
      if list.Astray? { return Astray; }
      nSize := nSize - list.used;
      return Got(StrictArray(list.value), size - nSize);
    }
    return DecodeValue(wide, m, at, size, kind);
  }

  lemma ObjectKinds(wide: bool, m: Memory, at: nat, size: nat)
    ensures DecodeValue(wide, m, at, size, OBJECT)
         == match DecodeAll(wide, m, at, size, true)
            case Error => Error case Astray => Astray case Got(props, used) => Got(Object(props), used)
    ensures DecodeValue(wide, m, at, size, ECMA_ARRAY)
         == match DecodeAll(wide, m, at + 4, size - 4, true)
            case Error => Error case Astray => Astray case Got(props, used) => Got(EcmaArray(props), 4 + used)
    ensures DecodeValue(wide, m, at, size, STRICT_ARRAY)
         == match DecodeArray(wide, m, at + 4, size - 4, Signed(Read32(m, at)), false)
            case Error => Error case Astray => Astray case Got(props, used) => Got(StrictArray(props), 4 + used)
  {
    hide DecodeAll;
    hide DecodeArray;
  }

  /** What a loop that has the properties `props`, read from `used` bytes, returns in the end. */
  function Joined(props: seq<Prop>, used: int, r: Decoded<seq<Prop>>): Decoded<seq<Prop>> {
    match r case Error => Error case Astray => Astray case Got(more, n) => Got(props + more, used + n)
  }

  lemma JoinedMore(props: seq<Prop>, used: int, p: Prop, n: int, r: Decoded<seq<Prop>>)
    ensures Joined(props, used, Joined([p], n, r)) == Joined(props + [p], used + n, r)
  {
    if r.Got? {
      assert props + ([p] + r.value) == props + [p] + r.value;
    }
  }

  /** `AMF_Decode` */
  method DecodeFrom(wide: bool, m: Memory, at: nat, size: int, named: bool) returns (r: Decoded<seq<Prop>>)
    ensures r == DecodeAll(wide, m, at, size, named)
    decreases Positive(size), 1
  {
    hide DecodeProp;
    hide DecodeAll;
    hide Read24;
    var p: nat, nSize: int, props: seq<Prop> := at, size, [];
    ghost var whole := DecodeAll(wide, m, at, size, named);
    JoinedNothing(whole);
    while nSize > 0
      invariant nSize <= size && (nSize >= 0 || nSize == size) && (size > 0 ==> nSize >= 0)
      invariant whole == Joined(props, size - nSize, DecodeAll(wide, m, p, nSize, named))
    {
      if nSize >= 3 && Read24(m, p) == OBJECT_END {
        AtEndMark(wide, m, p, nSize, named);
        assert props + [] == props;
        nSize := nSize - 3;
        return Got(props, size - nSize);
      }
      var item := DecodePropFrom(wide, m, p, nSize, named);
      if item.Error? {
        AllStops(wide, m, p, nSize, named);
        return Error;
      }
      if item.Astray? {
        AllStops(wide, m, p, nSize, named);
        return Astray;
      }
      if nSize - item.used < 0 {
        AllStops(wide, m, p, nSize, named);
        return Error;
      }
      if item.used <= 0 {
        AllStays(wide, m, p, nSize, named);
        return Astray;
      }
      AllNext(wide, m, p, nSize, named);
      JoinedMore(props, size - nSize, item.value, item.used,
                 DecodeAll(wide, m, p + item.used, nSize - item.used, named));
      nSize := nSize - item.used;
      p := p + item.used;
      props := props + [item.value];
    }
    AllStops(wide, m, p, nSize, named);
    assert props + [] == props;
    return Got(props, size - nSize);
  }

  lemma AtEndMark(wide: bool, m: Memory, at: nat, size: int, named: bool)
    requires size >= 3 && Read24(m, at) == OBJECT_END
    ensures DecodeAll(wide, m, at, size, named) == Got([], 3)
  {
  }

  /** An item that takes no bytes, or less than none, leaves the loop where it was or before. */
  lemma AllStays(wide: bool, m: Memory, at: nat, size: nat, named: bool)
    requires size > 0 && DecodeProp(wide, m, at, size, named).Got? && DecodeProp(wide, m, at, size, named).used <= 0
    requires !(size >= 3 && Read24(m, at) == OBJECT_END)
    ensures DecodeAll(wide, m, at, size, named) == Astray
  {
    hide DecodeProp;
  }

  lemma JoinedNothing(r: Decoded<seq<Prop>>)
    ensures Joined([], 0, r) == r
  {
    if r.Got? {
      assert [] + r.value == r.value;
    }
  }

  /** `AMF_DecodeArray`, whose size can go below 0 at the last element. */
  method DecodeArrayFrom(wide: bool, m: Memory, at: nat, size: int, count: int, named: bool)
    returns (r: Decoded<seq<Prop>>)
    ensures r == DecodeArray(wide, m, at, size, count, named)
    decreases Positive(size), 1
  {
    hide DecodeProp;
    hide DecodeArray;
    var p: nat, nSize: int, left: int, props: seq<Prop> := at, size, count, [];
    ghost var whole := DecodeArray(wide, m, at, size, count, named);
    JoinedNothing(whole);
    while left > 0
      invariant nSize <= size
      invariant whole == Joined(props, size - nSize, DecodeArray(wide, m, p, nSize, left, named))
    {
      ArrayUnfolds(wide, m, p, nSize, left, named);
      left := left - 1;
      if nSize <= 0 {
        return Error;
      }
      var item := DecodePropFrom(wide, m, p, nSize, named);
      if item.Error? {
        return Error;
      }
      if item.Astray? || item.used <= 0 {
        return Astray;
      }
      JoinedMore(props, size - nSize, item.value, item.used,
                 DecodeArray(wide, m, p + item.used, nSize - item.used, left, named));
      nSize := nSize - item.used;
      p := p + item.used;
      props := props + [item.value];
    }
    ArrayUnfolds(wide, m, p, nSize, left, named);
    assert props + [] == props;
    return Got(props, size - nSize);
  }

  lemma ArrayUnfolds(wide: bool, m: Memory, at: nat, size: int, count: int, named: bool)
    ensures count <= 0 ==> DecodeArray(wide, m, at, size, count, named) == Got([], 0)
    ensures count > 0 && size <= 0 ==> DecodeArray(wide, m, at, size, count, named) == Error
    ensures count > 0 && size > 0 ==>
              var item := DecodeProp(wide, m, at, size, named);
              DecodeArray(wide, m, at, size, count, named)
              == if item.Error? then Error
                 else if item.Astray? || item.used <= 0 then Astray
                 else Joined([item.value], item.used,
                             DecodeArray(wide, m, at + item.used, size - item.used, count - 1, named))
  {
    hide DecodeProp;
  }
}
