/**
  The RTMP chunk stream (section 5.3 of Adobe's RTMP specification 1.0) as rtmp_lib/rtmp.c writes it
  (`RTMP_SendPacket`) and reads it (`RTMP_ReadPacket`): what one call does, on values.

  Channel tables of the C code (arrays that grow on demand, filled with zero) are maps here.
 */
module RtmpChunks {
  import opened Common

  // ---------------------------------------------------------------- the writer

  const LARGE := 0
  const MEDIUM := 1
  const SMALL := 2
  const MINIMUM := 3

  type HeaderType = x: int | 0 <= x < 4

  /** A message to send: the packet fields the writer looks at. */
  datatype Packet = Packet(headerType: HeaderType, packetType: byte, channel: nat, timestamp: u32,
                           infoField2: u32, body: seq<byte>)

  /** The last packet of each channel, and (for the statements only) the timestamp field it was sent with. */
  datatype Sender = Sender(prev: map<nat, Packet>, fields: map<nat, u32>)

  /** The header type in the end: a medium header shrinks twice at most. */
  function Shrunk(prev: map<nat, Packet>, p: Packet): HeaderType {
    if p.channel in prev && p.headerType != LARGE then
      var q := prev[p.channel];
      var h := if |q.body| == |p.body| && q.packetType == p.packetType && p.headerType == MEDIUM
               then SMALL else p.headerType;
      if q.timestamp == p.timestamp && h == SMALL then MINIMUM else h
    else p.headerType
  }

  /** The timestamp or, for a header that is not large, the difference to the previous message. */
  function Delta(prev: map<nat, Packet>, p: Packet): u32 {
    var last := if p.channel in prev && p.headerType != LARGE then prev[p.channel].timestamp else 0;
    (p.timestamp - last) % 0x1_0000_0000
  }

  function Basic(h: HeaderType, channel: nat): (s: seq<byte>)
    requires channel <= 65599
    ensures 1 <= |s| <= 3
  {
    var c: int := channel - 64;
    if channel > 319 then [h * 64 + 1, Octet(c, 1), Octet(c, 256)]
    else if channel > 63 then [h * 64, c]
    else [h * 64 + channel]
  }

  const EXTENDED: u32 := 0xffffff

  function Field(t: u32): u32 {
    if t > EXTENDED then EXTENDED else t
  }

  function Extension(t: u32): (s: seq<byte>)
    ensures |s| == if t >= EXTENDED then 4 else 0
  {
    if t >= EXTENDED then Big32(t) else []
  }

  /** The message header between the basic header and the extended timestamp. */
  function MessageHeader(h: HeaderType, t: u32, p: Packet): (s: seq<byte>)
    requires |p.body| < 0x100_0000
    ensures |s| == MessageHeaderSize(h)
  {
    if h == MINIMUM then []
    else if h == SMALL then Big24(Field(t))
    else if h == MEDIUM then Big24(Field(t)) + Big24(|p.body|) + [p.packetType]
    else Big24(Field(t)) + Big24(|p.body|) + [p.packetType] + Little32(p.infoField2)
  }

  function MessageHeaderSize(h: HeaderType): nat {
    if h == LARGE then 11 else if h == MEDIUM then 7 else if h == SMALL then 3 else 0
  }

  predicate Sendable(p: Packet) {
    2 <= p.channel <= 65599 && |p.body| < 0x100_0000
  }

  function FirstHeader(prev: map<nat, Packet>, p: Packet): seq<byte>
    requires Sendable(p)
  {
    var h, t := Shrunk(prev, p), Delta(prev, p);
    Basic(h, p.channel) + MessageHeader(h, t, p) + Extension(t)
  }

  function NextHeader(prev: map<nat, Packet>, p: Packet): (s: seq<byte>)
    requires Sendable(p)
    ensures |s| > 0
  {
    Basic(MINIMUM, p.channel) + Extension(Delta(prev, p))
  }

  function Min(a: int, b: int): int {
    if a < b then a else b
  }

  /** The chunks that carry `body`, the first one after `header` and every other one after `next`. */
  function Cut(header: seq<byte>, next: seq<byte>, body: seq<byte>, size: nat): (c: seq<seq<byte>>)
    requires size >= 1
    decreases |body|
  {
    var k := Min(size, |body|);
    [header + body[..k]] + (if k < |body| then Cut(next, next, body[k..], size) else [])
  }

  function Chunks(prev: map<nat, Packet>, p: Packet, size: nat): seq<seq<byte>>
    requires Sendable(p) && size >= 1
  {
    Cut(FirstHeader(prev, p), NextHeader(prev, p), p.body, size)
  }

  function Join(chunks: seq<seq<byte>>): seq<byte> {
    if chunks == [] then [] else chunks[0] + Join(chunks[1..])
  }

  /** The writer's table after the message. */
  function Sent(s: Sender, p: Packet): Sender {
    Sender(s.prev[p.channel := p.(headerType := Shrunk(s.prev, p))],
           s.fields[p.channel := if Shrunk(s.prev, p) == MINIMUM && p.channel in s.fields then s.fields[p.channel]
                                 else Field(Delta(s.prev, p))])
  }

  // ---------------------------------------------------------------- the reader

  /** `RTMPPacket` on the reading side; a body is the whole allocated buffer. */
  datatype Incoming = Incoming(headerType: HeaderType, packetType: byte, hasAbs: bool, channel: nat,
                               timestamp: u32, infoField2: u32, bodySize: nat, bytesRead: nat,
                               body: Option<seq<byte>>)

  datatype Reader = Reader(chunkSize: nat, saved: map<nat, Incoming>, stamps: map<nat, u32>)

  /** `Failed`: the input ended; `Overrun`: the C code would write outside the body buffer. */
  datatype Outcome = Done(r: Reader, packet: Incoming, rest: seq<byte>) | Failed | Overrun

  function Zeros(n: nat): (s: seq<byte>)
    ensures |s| == n
  {
    seq(n, i => 0)
  }

  datatype BasicHeader = BasicHeader(h: HeaderType, channel: nat, size: nat)

  function ReadBasic(w: seq<byte>): (b: Option<BasicHeader>)
    ensures b.Some? ==> b.value.size <= |w|
  {
    if |w| < 1 then None else
    var h, c := w[0] / 64, w[0] % 64;
    if c == 0 then
      if |w| < 2 then None else Some(BasicHeader(h, w[1] as int + 64, 2))
    else if c == 1 then
      if |w| < 3 then None else Some(BasicHeader(h, w[2] as int * 256 + w[1] as int + 64, 3))
    else Some(BasicHeader(h, c, 1))
  }

  /** What a smaller header inherits; a large header starts from the caller's packet. */
  function Inherited(r: Reader, p: Incoming, b: BasicHeader): Incoming {
    if b.h == LARGE then p.(headerType := b.h, channel := b.channel, hasAbs := true)
    else if b.channel in r.saved then r.saved[b.channel]
    else p.(headerType := b.h, channel := b.channel)
  }

  function WithMessageHeader(p: Incoming, w: seq<byte>, h: HeaderType): Incoming
    requires |w| >= MessageHeaderSize(h)
  {
    if h == MINIMUM then p
    else if h == SMALL then p.(timestamp := FromBig24(w))
    else
      var q := p.(timestamp := FromBig24(w), bodySize := FromBig24(w[3..]), bytesRead := 0, packetType := w[6]);
      if h == MEDIUM then q else q.(infoField2 := FromLittle32(w[7..]))
  }

  /** The rest of `RTMP_ReadPacket`, from the allocation of the body on; `w` starts at the chunk data. */
  function ReadData(r: Reader, p: Incoming, h: HeaderType, extended: bool, w: seq<byte>): Outcome {
    var p := if p.bodySize > 0 && p.body.None?
             then p.(body := Some(Zeros(p.bodySize)), bytesRead := 0, headerType := h) else p;
    var n := Min(r.chunkSize, p.bodySize - p.bytesRead);
    if n < 0 || (n > 0 && (p.body.None? || p.bytesRead + n > |p.body.value|)) then Overrun
    else if |w| < n then Failed
    else
      var body := if n == 0 then p.body
                  else Some(p.body.value[..p.bytesRead] + w[..n] + p.body.value[p.bytesRead + n..]);
      Finish(r, p.(body := body, bytesRead := p.bytesRead + n), extended, w[n..])
  }

  /** Keeps the packet for its channel; a complete one gets its absolute timestamp. */
  function Finish(r: Reader, p: Incoming, extended: bool, rest: seq<byte>): Outcome {
    var keep := if extended then p.(timestamp := EXTENDED) else p;
    if p.bytesRead == p.bodySize then
      var before := if p.channel in r.stamps then r.stamps[p.channel] else 0;
      var ts := if p.hasAbs then p.timestamp else (p.timestamp + before) % 0x1_0000_0000;
      Done(Reader(r.chunkSize, r.saved[p.channel := keep.(body := None, bytesRead := 0, hasAbs := false)],
                  r.stamps[p.channel := ts]),
           p.(timestamp := ts), rest)
    else
      Done(r.(saved := r.saved[p.channel := keep]), p.(body := None), rest)
  }

  /** One call of `RTMP_ReadPacket`: one chunk. */
  function ReadChunk(r: Reader, p: Incoming, w: seq<byte>): Outcome {
    var b := ReadBasic(w);
    if b.None? then Failed else
    var m := w[b.value.size..];
    var n := MessageHeaderSize(b.value.h);
    if |m| < n then Failed else
    var q := WithMessageHeader(Inherited(r, p, b.value), m, b.value.h);
    if q.timestamp == EXTENDED then
      if |m| < n + 4 then Failed
      else ReadData(r, q.(timestamp := FromBig32(m[n..])), b.value.h, true, m[n + 4..])
    else
      ReadData(r, q, b.value.h, false, m[n..])
  }
}
