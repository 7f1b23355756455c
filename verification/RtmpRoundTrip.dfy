/**
  Reading back what `RTMP_SendPacket` has written: exactly when `RTMP_ReadPacket` returns the message
  (rtmp_lib/rtmp.c), one message after the other on one channel.
 */
module RtmpRoundTrip {
  import opened Common
  import opened RtmpChunks

  /** Reading chunk after chunk; each call must consume its chunk exactly. */
  datatype Run = Run(r: Reader, packet: Incoming, complete: seq<Incoming>)

  predicate IsReady(p: Incoming) {
    p.bytesRead == p.bodySize
  }

  /** The caller passes the same packet again, after taking the body of a complete one. */
  function ReadAll(r: Reader, p: Incoming, chunks: seq<seq<byte>>): Option<Run>
    decreases |chunks|
  {
    if chunks == [] then Some(Run(r, p, [])) else
    match ReadChunk(r, p, chunks[0])
    case Done(r', p', rest) =>
      if rest != [] then None else
      (match ReadAll(r', p'.(body := None), chunks[1..])
       case None => None
       case Some(run) => Some(run.(complete := (if IsReady(p') then [p'] else []) + run.complete)))
    case _ => None
  }

  predicate Delivers(m: Incoming, p: Packet) {
    && m.channel == p.channel && m.packetType == p.packetType && m.timestamp == p.timestamp
    && m.infoField2 == p.infoField2 && m.bodySize == |p.body|
    && (p.body == [] || m.body == Some(p.body))
  }

  /** The channel tables of both ends agree about channel `c`. */
  predicate InStep(s: Sender, r: Reader, c: nat) {
    c in s.prev ==>
      && c in s.fields && s.fields[c] <= EXTENDED && c in r.saved && c in r.stamps
      && s.prev[c].channel == c && r.stamps[c] == s.prev[c].timestamp
      && r.saved[c] == Incoming(r.saved[c].headerType, s.prev[c].packetType, false, c, s.fields[c],
                                s.prev[c].infoField2, |s.prev[c].body|, 0, None)
  }

  lemma BasicReads(h: HeaderType, c: nat, w: seq<byte>)
    requires 2 <= c <= 65599
    ensures ReadBasic(Basic(h, c) + w) == Some(BasicHeader(h, c, |Basic(h, c)|))
    ensures (Basic(h, c) + w)[|Basic(h, c)|..] == w
  {
    if c > 319 {
      var d: int := c - 64;
      assert Octet(d, 256) as int * 256 + Octet(d, 1) as int == d;
    }
  }

  /** What the header makes of the saved packet, when the extended timestamps fit. */
  function Opened(s: Sender, r: Reader, p: Packet): Incoming
    requires p.channel in r.saved || Shrunk(s.prev, p) == LARGE
  {
    var h, t := Shrunk(s.prev, p), Delta(s.prev, p);
    if h == LARGE then Incoming(LARGE, p.packetType, true, p.channel, t, p.infoField2, |p.body|, 0, None)
    else
      var v := r.saved[p.channel];
      if h == MEDIUM then v.(timestamp := t, bodySize := |p.body|, bytesRead := 0, packetType := p.packetType)
      else if h == SMALL then v.(timestamp := t)
      else v.(timestamp := if v.timestamp == EXTENDED then t else v.timestamp)
  }

  /** The timestamp field as the reader sees it. */
  function FieldSeen(s: Sender, r: Reader, p: Packet): u32
    requires p.channel in r.saved || Shrunk(s.prev, p) == LARGE
  {
    if Shrunk(s.prev, p) == MINIMUM then r.saved[p.channel].timestamp else Field(Delta(s.prev, p))
  }

  /** Both ends expect, or do not expect, an extended timestamp. */
  predicate ExtensionAgrees(s: Sender, r: Reader, p: Packet)
    requires p.channel in r.saved || Shrunk(s.prev, p) == LARGE
  {
    FieldSeen(s, r, p) == EXTENDED <==> Delta(s.prev, p) >= EXTENDED
  }

  function WithFields(q: Incoming, h: HeaderType, t: u32, p: Packet): Incoming {
    if h == MINIMUM then q
    else if h == SMALL then q.(timestamp := Field(t))
    else
      var m := q.(timestamp := Field(t), bodySize := |p.body|, bytesRead := 0, packetType := p.packetType);
      if h == MEDIUM then m else m.(infoField2 := p.infoField2)
  }

  lemma MessageHeaderReads(h: HeaderType, t: u32, p: Packet, q: Incoming, w: seq<byte>)
    requires |p.body| < 0x100_0000
    ensures WithMessageHeader(q, MessageHeader(h, t, p) + w, h) == WithFields(q, h, t, p)
  {
    var x := MessageHeader(h, t, p) + w;
    var ts, size := Big24(Field(t)), Big24(|p.body|);
    if h == SMALL {
      Big24RoundTrip(Field(t), w);
    } else if h != MINIMUM {
      var tail := if h == MEDIUM then [p.packetType] + w else [p.packetType] + (Little32(p.infoField2) + w);
      assert x == ts + (size + tail);
      SizesRead(ts, size, tail, Field(t), |p.body|);
      if h == LARGE {
        Little32RoundTrip(p.infoField2, w);
        assert x[7..] == Little32(p.infoField2) + w;
      }
    }
  }

  lemma SizesRead(ts: seq<byte>, size: seq<byte>, tail: seq<byte>, t: u32, n: u32)
    requires ts == Big24(t) && size == Big24(n) && t < 0x100_0000 && n < 0x100_0000 && |tail| > 0
    ensures var x := ts + (size + tail);
            |x| >= 7 && FromBig24(x) == t && FromBig24(x[3..]) == n && x[6] == tail[0]
  {
    var x := ts + (size + tail);
    Big24RoundTrip(t, size + tail);
    Big24RoundTrip(n, tail);
    assert x[3..] == size + tail;
  }

  /** The reader's way through the first header, as long as the extended timestamps fit. */
  lemma FirstHeaderReads(s: Sender, r: Reader, p: Packet, p0: Incoming, w: seq<byte>)
    requires Sendable(p) && p0.body.None?
    requires p.channel in r.saved || Shrunk(s.prev, p) == LARGE
    requires ExtensionAgrees(s, r, p)
    ensures ReadChunk(r, p0, FirstHeader(s.prev, p) + w)
         == ReadData(r, Opened(s, r, p), Shrunk(s.prev, p), FieldSeen(s, r, p) == EXTENDED, w)
  {
    hide Shrunk;
    hide Delta;
    hide Basic;
    hide MessageHeader;
    hide WithMessageHeader;
    hide ReadData;
    hide ReadBasic;
    var h, t := Shrunk(s.prev, p), Delta(s.prev, p);
    var b, m, e := Basic(h, p.channel), MessageHeader(h, t, p), Extension(t);
    var x := FirstHeader(s.prev, p) + w;
    assert x == b + (m + (e + w));
    BasicReads(h, p.channel, m + (e + w));
    var q := Inherited(r, p0, BasicHeader(h, p.channel, |b|));
    MessageHeaderReads(h, t, p, q, e + w);
    assert (m + (e + w))[|m|..] == e + w;
    if t >= EXTENDED {
      Big32RoundTrip(t, w);
      assert (m + (e + w))[|m| + 4..] == w;
    } else {
      assert e + w == w;
    }
  }

  /** The header between two chunks of one message, read on a channel with a half-read body. */
  lemma NextHeaderReads(r: Reader, c: nat, x: u32, p0: Incoming, w: seq<byte>)
    requires 2 <= c <= 65599 && c in r.saved && (r.saved[c].timestamp != EXTENDED ==> r.saved[c].timestamp == x)
    ensures var f := r.saved[c].timestamp;
            ReadChunk(r, p0, Basic(MINIMUM, c) + (if f == EXTENDED then Big32(x) else []) + w)
            == ReadData(r, r.saved[c].(timestamp := x), MINIMUM, f == EXTENDED, w)
  {
    var f := r.saved[c].timestamp;
    var b, e := Basic(MINIMUM, c), if f == EXTENDED then Big32(x) else [];
    assert b + e + w == b + (e + w);
    BasicReads(MINIMUM, c, e + w);
    if f == EXTENDED {
      Big32RoundTrip(x, w);
      assert (e + w)[4..] == w;
    } else {
      assert e + w == w;
    }
  }

  /** `v` holds the first `k` bytes of `body`. */
  predicate Holding(v: Incoming, body: seq<byte>, k: nat) {
    && v.bytesRead == k <= |body| == v.bodySize
    && (v.body.Some? ==> |v.body.value| == |body| && v.body.value[..k] == body[..k])
    && (k > 0 ==> v.body.Some?)
  }

  /** A packet ends up complete: what is returned, and what stays for the channel. */
  function Completed(r: Reader, v: Incoming, x: u32): Incoming {
    v.(timestamp := if v.hasAbs then x
                    else (x + (if v.channel in r.stamps then r.stamps[v.channel] else 0)) % 0x1_0000_0000)
  }

  function Settled(r: Reader, v: Incoming, f: u32, x: u32): Reader {
    Reader(r.chunkSize,
           r.saved[v.channel := v.(timestamp := f, body := None, bytesRead := 0, hasAbs := false)],
           r.stamps[v.channel := Completed(r, v, x).timestamp])
  }

  function Extend(v: Incoming, body: seq<byte>, k: nat, n: nat, h: HeaderType): Incoming
    requires Holding(v, body, k) && k + n <= |body|
  {
    if |body| == 0 then v
    else if v.body.None? then
      v.(headerType := h, bytesRead := n,
         body := if n == 0 then Some(Zeros(|body|)) else Some(body[..n] + Zeros(|body|)[n..]))
    else v.(bytesRead := k + n, body := if n == 0 then v.body else Some(body[..k + n] + v.body.value[k + n..]))
  }

  /** One chunk's worth of data goes to its place in the body. */
  lemma DataReads(r: Reader, v: Incoming, h: HeaderType, ext: bool, body: seq<byte>, k: nat, w: seq<byte>)
    requires Holding(v, body, k) && (k == 0 ==> v.body.None?) && r.chunkSize >= 1 && (k < |body| || |body| == 0)
    requires var n := Min(r.chunkSize, |body| - k); |w| >= n && w[..n] == body[k..k + n]
    ensures var n := Min(r.chunkSize, |body| - k);
            var v' := Extend(v, body, k, n, h);
            Holding(v', body, k + n) && ReadData(r, v, h, ext, w) == Finish(r, v', ext, w[n..])
            && v' == v.(headerType := v'.headerType, bytesRead := k + n, body := v'.body)
  {
    var n := Min(r.chunkSize, |body| - k);
    assert body[..k] + body[k..k + n] == body[..k + n];
    if v.body.None? && |body| > 0 {
      assert Zeros(|body|)[..0] == [];
      assert [] + w[..n] == w[..n] == body[..n];
    }
  }

  lemma ReadAllStep(r: Reader, p: Incoming, chunk: seq<byte>, more: seq<seq<byte>>, r': Reader, p': Incoming)
    requires ReadChunk(r, p, chunk) == Done(r', p', [])
    ensures ReadAll(r, p, [chunk] + more)
         == match ReadAll(r', p'.(body := None), more)
            case None => None
            case Some(run) => Some(run.(complete := (if IsReady(p') then [p'] else []) + run.complete))
  {
    assert ([chunk] + more)[1..] == more;
  }

  /** One more chunk of a half-read message. */
  lemma NextChunkReads(r: Reader, p0: Incoming, c: nat, x: u32, body: seq<byte>, k: nat, data: seq<byte>)
    returns (v: Incoming)
    requires 2 <= c <= 65599 && c in r.saved && r.saved[c].channel == c && r.chunkSize >= 1
    requires r.saved[c].timestamp != EXTENDED ==> r.saved[c].timestamp == x
    requires 0 < k < |body| && Holding(r.saved[c], body, k)
    requires data == body[k..k + Min(r.chunkSize, |body| - k)]
    ensures var f := r.saved[c].timestamp;
            var chunk := Basic(MINIMUM, c) + (if f == EXTENDED then Big32(x) else []) + data;
            && Holding(v, body, k + |data|) && v == r.saved[c].(timestamp := x, bytesRead := k + |data|, body := v.body)
            && ReadChunk(r, p0, chunk) == Finish(r, v, f == EXTENDED, [])
  {
    var f := r.saved[c].timestamp;
    NextHeaderReads(r, c, x, p0, data);
    var q := r.saved[c].(timestamp := x);
    DataReads(r, q, MINIMUM, f == EXTENDED, body, k, data);
    v := Extend(q, body, k, |data|, MINIMUM);
    assert data[|data|..] == [];
  }

  /** The basic header of a continuation, with the extended timestamp repeated. */
  function Repeat(c: nat, f: u32, x: u32): (s: seq<byte>)
    requires c <= 65599
    ensures |s| > 0
  {
    Basic(MINIMUM, c) + (if f == EXTENDED then Big32(x) else [])
  }

  /** Channel `c` is in the middle of reading `body`. */
  ghost predicate Midway(r: Reader, c: nat, x: u32, body: seq<byte>, k: nat) {
    && 2 <= c <= 65599 && c in r.saved && r.saved[c].channel == c && r.chunkSize >= 1
    && (r.saved[c].timestamp != EXTENDED ==> r.saved[c].timestamp == x)
    && 0 < k < |body| && Holding(r.saved[c], body, k)
  }

  function Whole(v: Incoming, body: seq<byte>): Incoming {
    v.(bytesRead := |body|, body := Some(body))
  }

  function Ending(r: Reader, v: Incoming, f: u32, x: u32): Run {
    Run(Settled(r, v, f, x), Completed(r, v, x).(body := None), [Completed(r, v, x)])
  }

  lemma LastChunkReads(r: Reader, p0: Incoming, c: nat, x: u32, body: seq<byte>, k: nat, data: seq<byte>)
    requires Midway(r, c, x, body, k) && data == body[k..] && |data| <= r.chunkSize
    ensures ReadAll(r, p0, [Repeat(c, r.saved[c].timestamp, x) + data])
         == Some(Ending(r, Whole(r.saved[c], body), r.saved[c].timestamp, x))
  {
    hide ReadAll;
    hide ReadChunk;
    hide Basic;
    hide Finish;
    var f := r.saved[c].timestamp;
    assert data == body[k..k + |data|];
    var v := NextChunkReads(r, p0, c, x, body, k, data);
    assert v.body.value[..|body|] == v.body.value;
    assert body[..|body|] == body;
    var full := Whole(r.saved[c], body);
    FinishComplete(r, v, full, f, x);
    var chunk := Repeat(c, f, x) + data;
    ReadAllStep(r, p0, chunk, [], Settled(r, full, f, x), Completed(r, full, x));
    ReadNothing(Settled(r, full, f, x), Completed(r, full, x).(body := None));
    assert [chunk] + [] == [chunk];
    assert [Completed(r, full, x)] + [] == [Completed(r, full, x)];
  }

  lemma HoldingStamp(v: Incoming, f: u32, body: seq<byte>, k: nat)
    requires Holding(v, body, k)
    ensures Holding(v.(timestamp := f), body, k)
  {
  }

  lemma MiddleChunkReads(r: Reader, p0: Incoming, c: nat, x: u32, body: seq<byte>, k: nat, data: seq<byte>)
    returns (v: Incoming)
    requires Midway(r, c, x, body, k) && r.chunkSize < |body| - k && data == body[k..k + r.chunkSize]
    ensures var f := r.saved[c].timestamp;
            && v == r.saved[c].(timestamp := x, bytesRead := k + r.chunkSize, body := v.body)
            && Midway(Parked(r, v, f), c, x, body, k + r.chunkSize)
            && ReadChunk(r, p0, Repeat(c, f, x) + data) == Done(Parked(r, v, f), v.(body := None), [])
  {
    hide ReadChunk;
    v := NextChunkReads(r, p0, c, x, body, k, data);
    var f := r.saved[c].timestamp;
    FinishPartial(r, v, f);
    assert Parked(r, v, f).saved[c] == v.(timestamp := f);
    HoldingStamp(v, f, body, k + r.chunkSize);
  }

  lemma CutParts(header: seq<byte>, next: seq<byte>, body: seq<byte>, size: nat)
    requires size >= 1
    ensures Cut(header, next, body, size)
         == if |body| <= size then [header + body]
            else [header + body[..size]] + Cut(next, next, body[size..], size)
  {
    if |body| <= size {
      assert body[..|body|] == body;
    }
  }

  lemma RestStep(r: Reader, p0: Incoming, c: nat, x: u32, body: seq<byte>, k: nat, more: seq<seq<byte>>, v: Incoming)
    requires Midway(r, c, x, body, k) && r.chunkSize < |body| - k
    requires var f := r.saved[c].timestamp;
             && v == r.saved[c].(timestamp := x, bytesRead := k + r.chunkSize, body := v.body)
             && ReadChunk(r, p0, Repeat(c, f, x) + body[k..k + r.chunkSize])
                == Done(Parked(r, v, f), v.(body := None), [])
             && ReadAll(Parked(r, v, f), v.(body := None), more)
                == Some(Ending(Parked(r, v, f), Whole(Parked(r, v, f).saved[c], body), f, x))
    ensures var f := r.saved[c].timestamp;
            ReadAll(r, p0, [Repeat(c, f, x) + body[k..k + r.chunkSize]] + more)
            == Some(Ending(r, Whole(r.saved[c], body), f, x))
  {
    var f := r.saved[c].timestamp;
    ReadAllStep(r, p0, Repeat(c, f, x) + body[k..k + r.chunkSize], more, Parked(r, v, f), v.(body := None));
    assert Parked(r, v, f).saved[c] == v.(timestamp := f);
    assert Whole(v.(timestamp := f), body) == Whole(r.saved[c], body);
    ParkedThenSettled(r, v, Whole(r.saved[c], body), f, x);
    var m := Completed(r, Whole(r.saved[c], body), x);
    assert [] + [m] == [m];
  }

  /** The rest of a message: the chunks after the first one complete it. */
  lemma {:induction false} RestReads(r: Reader, p0: Incoming, c: nat, x: u32, body: seq<byte>, k: nat)
    requires Midway(r, c, x, body, k)
    ensures var f := r.saved[c].timestamp;
            ReadAll(r, p0, Cut(Repeat(c, f, x), Repeat(c, f, x), body[k..], r.chunkSize))
            == Some(Ending(r, Whole(r.saved[c], body), f, x))
    decreases |body| - k
  {
    hide ReadAll;
    hide ReadChunk;
    var f := r.saved[c].timestamp;
    var n := r.chunkSize;
    CutParts(Repeat(c, f, x), Repeat(c, f, x), body[k..], n);
    if |body| - k <= n {
      LastChunkReads(r, p0, c, x, body, k, body[k..]);
    } else {
      var v := MiddleChunkReads(r, p0, c, x, body, k, body[k..k + n]);
      var r' := Parked(r, v, f);
      assert r'.saved[c].timestamp == f;
      RestReads(r', v.(body := None), c, x, body, k + n);
      RestStep(r, p0, c, x, body, k, Cut(Repeat(c, f, x), Repeat(c, f, x), body[k + n..], n), v);
      assert body[k..][..n] == body[k..k + n];
      assert body[k..][n..] == body[k + n..];
    }
  }

  /** The reader with a half-read packet kept for its channel. */
  function Parked(r: Reader, v: Incoming, f: u32): Reader {
    r.(saved := r.saved[v.channel := v.(timestamp := f)])
  }

  lemma FinishPartial(r: Reader, v: Incoming, f: u32)
    requires v.bytesRead != v.bodySize && (f == EXTENDED || v.timestamp == f)
    ensures Finish(r, v, f == EXTENDED, []) == Done(Parked(r, v, f), v.(body := None), [])
  {
  }

  lemma FinishComplete(r: Reader, v: Incoming, full: Incoming, f: u32, x: u32)
    requires v.bytesRead == v.bodySize && v == full.(timestamp := x) && (f == EXTENDED || x == f)
    ensures Finish(r, v, f == EXTENDED, []) == Done(Settled(r, full, f, x), Completed(r, full, x), [])
  {
  }

  lemma ParkedThenSettled(r: Reader, v: Incoming, full: Incoming, f: u32, x: u32)
    requires v.channel == full.channel
    ensures Settled(Parked(r, v, f), full, f, x) == Settled(r, full, f, x)
    ensures Completed(Parked(r, v, f), full, x) == Completed(r, full, x)
  {
    var c := full.channel;
    var kept := full.(timestamp := f, body := None, bytesRead := 0, hasAbs := false);
    assert r.saved[c := v.(timestamp := f)][c := kept] == r.saved[c := kept];
  }

  /** The complete packet as the reader builds it: the inherited fields and the body. */
  function Filled(s: Sender, r: Reader, p: Packet): Incoming
    requires p.channel in r.saved || Shrunk(s.prev, p) == LARGE
  {
    var v := Opened(s, r, p);
    if p.body == [] then v else Whole(v.(headerType := Shrunk(s.prev, p)), p.body)
  }

  /** A message both ends understand alike: same sizes, and the extended timestamp where it is expected. */
  ghost predicate Understood(s: Sender, r: Reader, p: Packet, p0: Incoming) {
    && Sendable(p) && r.chunkSize >= 1 && p0.body.None? && InStep(s, r, p.channel)
    && (Shrunk(s.prev, p) == LARGE || p.channel in s.prev)
    && ExtensionAgrees(s, r, p) && Opened(s, r, p).bodySize == |p.body|
  }

  lemma FirstChunkReads(s: Sender, r: Reader, p: Packet, p0: Incoming) returns (v: Incoming)
    requires Understood(s, r, p, p0)
    ensures var n := Min(r.chunkSize, |p.body|);
            && Holding(v, p.body, n) && (|p.body| == 0 ==> v == Opened(s, r, p))
            && (|p.body| > 0 ==> v == Opened(s, r, p).(headerType := Shrunk(s.prev, p), bytesRead := n, body := v.body))
            && ReadChunk(r, p0, FirstHeader(s.prev, p) + p.body[..n])
               == Finish(r, v, FieldSeen(s, r, p) == EXTENDED, [])
  {
    hide ReadChunk;
    hide Basic;
    hide Shrunk;
    var h, f := Shrunk(s.prev, p), FieldSeen(s, r, p);
    var n := Min(r.chunkSize, |p.body|);
    var data := p.body[..n];
    FirstHeaderReads(s, r, p, p0, data);
    assert data == p.body[0..0 + n];
    DataReads(r, Opened(s, r, p), h, f == EXTENDED, p.body, 0, data);
    v := Extend(Opened(s, r, p), p.body, 0, n, h);
    assert data[n..] == [];
  }

  lemma ShortMessageReads(s: Sender, r: Reader, p: Packet, p0: Incoming)
    requires Understood(s, r, p, p0) && |p.body| <= r.chunkSize
    ensures ReadAll(r, p0, Chunks(s.prev, p, r.chunkSize))
         == Some(Ending(r, Filled(s, r, p), FieldSeen(s, r, p), Opened(s, r, p).timestamp))
  {
    hide ReadAll;
    hide ReadChunk;
    hide Basic;
    hide Shrunk;
    var f, x := FieldSeen(s, r, p), Opened(s, r, p).timestamp;
    var first := FirstHeader(s.prev, p);
    CutParts(first, NextHeader(s.prev, p), p.body, r.chunkSize);
    assert p.body[..|p.body|] == p.body;
    var v := FirstChunkReads(s, r, p, p0);
    if |p.body| > 0 {
      assert v.body.value[..|p.body|] == v.body.value;
    }
    assert v == Filled(s, r, p);
    FinishComplete(r, v, v, f, x);
    var m := Completed(r, v, x);
    ReadAllStep(r, p0, first + p.body, [], Settled(r, v, f, x), m);
    assert [first + p.body] + [] == [first + p.body];
    ReadNothing(Settled(r, v, f, x), m.(body := None));
    assert [m] + [] == [m];
  }

  lemma LongMessageReads(s: Sender, r: Reader, p: Packet, p0: Incoming)
    requires Understood(s, r, p, p0) && |p.body| > r.chunkSize
    ensures ReadAll(r, p0, Chunks(s.prev, p, r.chunkSize))
         == Some(Ending(r, Filled(s, r, p), FieldSeen(s, r, p), Opened(s, r, p).timestamp))
  {
    hide ReadAll;
    hide ReadChunk;
    hide Basic;
    hide Shrunk;
    var f, x, n := FieldSeen(s, r, p), Opened(s, r, p).timestamp, r.chunkSize;
    var first, next := FirstHeader(s.prev, p), NextHeader(s.prev, p);
    CutParts(first, next, p.body, n);
    var v := FirstChunkReads(s, r, p, p0);
    FinishPartial(r, v, f);
    var r' := Parked(r, v, f);
    assert r'.saved[p.channel] == v.(timestamp := f);
    HoldingStamp(v, f, p.body, n);
    assert next == Repeat(p.channel, f, x);
    RestReads(r', v.(body := None), p.channel, x, p.body, n);
    ReadAllStep(r, p0, first + p.body[..n], Cut(next, next, p.body[n..], n), r', v.(body := None));
    var full := Filled(s, r, p);
    assert Whole(v.(timestamp := f), p.body) == full.(timestamp := f);
    ParkedThenSettled(r, v, full, f, x);
    var m := Completed(r, full, x);
    assert [] + [m] == [m];
  }

  /** The chunks of a message are read to its end, whenever both ends understand it alike. */
  lemma MessageReads(s: Sender, r: Reader, p: Packet, p0: Incoming)
    requires Understood(s, r, p, p0)
    ensures ReadAll(r, p0, Chunks(s.prev, p, r.chunkSize))
         == Some(Ending(r, Filled(s, r, p), FieldSeen(s, r, p), Opened(s, r, p).timestamp))
  {
    if |p.body| <= r.chunkSize {
      ShortMessageReads(s, r, p, p0);
    } else {
      LongMessageReads(s, r, p, p0);
    }
  }

  lemma ReadNothing(r: Reader, p: Incoming)
    ensures ReadAll(r, p, []) == Some(Run(r, p, []))
  {
  }

  // ---------------------------------------------------------------- exactly when a message comes through

  /**
    What the sender can check beforehand.  Everything a smaller header leaves out must be what the
    channel last carried; with no header at all, so must be the timestamp difference (or, after an
    extended one, the fact that it is extended: it is then sent again).
   */
  predicate ComesThrough(s: Sender, p: Packet) {
    var h, t := Shrunk(s.prev, p), Delta(s.prev, p);
    h == LARGE
    || (p.channel in s.prev && p.channel in s.fields
        && var q := s.prev[p.channel];
           && q.infoField2 == p.infoField2
           && (h >= SMALL ==> |q.body| == |p.body| && q.packetType == p.packetType)
           && (h == MINIMUM ==> if s.fields[p.channel] == EXTENDED then t >= EXTENDED else t == s.fields[p.channel]))
  }

  /** Reading the chunks of `p`, each to its exact end, returns one message, and that is `p`. */
  ghost predicate ReadsBack(s: Sender, r: Reader, p: Packet, p0: Incoming)
    requires Sendable(p) && r.chunkSize >= 1
  {
    var run := ReadAll(r, p0, Chunks(s.prev, p, r.chunkSize));
    run.Some? && |run.value.complete| == 1 && Delivers(run.value.complete[0], p)
  }

  lemma StampsAdd(last: u32, t: u32, x: u32)
    ensures (x + last) % 0x1_0000_0000 == (t + last) % 0x1_0000_0000 <==> x == t
  {
  }

  lemma UnderstoodDelivers(s: Sender, r: Reader, p: Packet, p0: Incoming)
    requires Understood(s, r, p, p0)
    ensures ReadsBack(s, r, p, p0) <==> ComesThrough(s, p)
  {
    hide ReadAll;
    hide Chunks;
    MessageReads(s, r, p, p0);
    FilledDelivers(s, r, p, p0);
  }

  lemma FilledDelivers(s: Sender, r: Reader, p: Packet, p0: Incoming)
    requires Understood(s, r, p, p0)
    ensures Delivers(Completed(r, Filled(s, r, p), Opened(s, r, p).timestamp), p) <==> ComesThrough(s, p)
  {
    var x, t := Opened(s, r, p).timestamp, Delta(s.prev, p);
    var m := Completed(r, Filled(s, r, p), x);
    if Shrunk(s.prev, p) != LARGE {
      var last := s.prev[p.channel].timestamp;
      StampsAdd(last, t, x);
      assert (t as int + last as int) % 0x1_0000_0000 == p.timestamp;
      assert m.timestamp == (x as int + last as int) % 0x1_0000_0000;
    }
  }

  /** With no message header, or only a timestamp, the size of the body stays what it was. */
  lemma {:induction false} SizeStays(r: Reader, c: nat, size: nat, p0: Incoming, next: seq<byte>, body: seq<byte>,
                                     n: nat)
    requires 2 <= c <= 65599 && n >= 1 && |next| >= |Basic(MINIMUM, c)|
             && next[..|Basic(MINIMUM, c)|] == Basic(MINIMUM, c)
    requires c in r.saved && r.saved[c].channel == c && r.saved[c].bodySize == size
    ensures var run := ReadAll(r, p0, Cut(next, next, body, n));
            run.Some? ==> forall m :: m in run.value.complete ==> m.bodySize == size
    decreases |body|
  {
    hide Basic;
    CutParts(next, next, body, n);
    var data := if |body| <= n then body else body[..n];
    var more := if |body| <= n then [] else Cut(next, next, body[n..], n);
    var chunk := next + data;
    assert Cut(next, next, body, n) == [chunk] + more;
    MinimumKeepsSize(r, c, p0, chunk);
    var o := ReadChunk(r, p0, chunk);
    if o.Done? && o.rest == [] {
      ReadAllStep(r, p0, chunk, more, o.r, o.packet);
      if |body| > n {
        SizeStays(o.r, c, size, o.packet.(body := None), next, body[n..], n);
      } else {
        ReadNothing(o.r, o.packet.(body := None));
      }
    } else {
      assert ReadAll(r, p0, [chunk] + more).None?;
    }
  }

  lemma DataKeepsSize(r: Reader, p: Incoming, h: HeaderType, extended: bool, w: seq<byte>)
    ensures var o := ReadData(r, p, h, extended, w);
            o.Done? ==> && o.packet.bodySize == p.bodySize && p.channel in o.r.saved
                        && o.r.saved[p.channel].bodySize == p.bodySize && o.r.saved[p.channel].channel == p.channel
  {
  }

  lemma MinimumKeepsSize(r: Reader, c: nat, p0: Incoming, w: seq<byte>)
    requires 2 <= c <= 65599 && |w| >= |Basic(MINIMUM, c)| && w[..|Basic(MINIMUM, c)|] == Basic(MINIMUM, c)
    requires c in r.saved && r.saved[c].channel == c
    ensures var o := ReadChunk(r, p0, w);
            o.Done? ==> && o.packet.bodySize == r.saved[c].bodySize && c in o.r.saved
                        && o.r.saved[c].bodySize == r.saved[c].bodySize && o.r.saved[c].channel == c
  {
    hide Finish;
    var b := Basic(MINIMUM, c);
    assert w == b + w[|b|..];
    BasicReads(MINIMUM, c, w[|b|..]);
    var m := w[|b|..];
    var q := r.saved[c];
    DataKeepsSize(r, q, MINIMUM, false, m);
    if |m| >= 4 {
      DataKeepsSize(r, q.(timestamp := FromBig32(m)), MINIMUM, true, m[4..]);
      assert m[0..] == m;
    }
  }

  /** A first chunk that leaves out the size is read with the size kept for the channel. */
  lemma FirstKeepsSize(s: Sender, r: Reader, p: Packet, p0: Incoming, data: seq<byte>)
    requires Sendable(p) && p0.body.None? && InStep(s, r, p.channel) && p.channel in s.prev
    requires Shrunk(s.prev, p) >= SMALL
    ensures var o := ReadChunk(r, p0, FirstHeader(s.prev, p) + data);
            o.Done? ==> && o.packet.bodySize == r.saved[p.channel].bodySize && p.channel in o.r.saved
                        && o.r.saved[p.channel].bodySize == r.saved[p.channel].bodySize
                        && o.r.saved[p.channel].channel == p.channel
  {
    hide Basic;
    hide ReadChunk;
    hide ReadData;
    var chunk := FirstHeader(s.prev, p) + data;
    if Shrunk(s.prev, p) == SMALL {
      FirstHeaderReads(s, r, p, p0, data);
      DataKeepsSize(r, Opened(s, r, p), SMALL, FieldSeen(s, r, p) == EXTENDED, data);
    } else {
      var b := Basic(MINIMUM, p.channel);
      assert chunk == b + (Extension(Delta(s.prev, p)) + data);
      MinimumKeepsSize(r, p.channel, p0, chunk);
    }
  }

  lemma WrongSize(s: Sender, r: Reader, p: Packet, p0: Incoming)
    requires Sendable(p) && r.chunkSize >= 1 && p0.body.None? && InStep(s, r, p.channel) && p.channel in s.prev
    requires Shrunk(s.prev, p) >= SMALL && |s.prev[p.channel].body| != |p.body|
    ensures !ReadsBack(s, r, p, p0)
  {
    hide Basic;
    hide ReadChunk;
    var n, size := r.chunkSize, r.saved[p.channel].bodySize;
    var first, next := FirstHeader(s.prev, p), NextHeader(s.prev, p);
    CutParts(first, next, p.body, n);
    var data := if |p.body| <= n then p.body else p.body[..n];
    var more := if |p.body| <= n then [] else Cut(next, next, p.body[n..], n);
    var chunk := first + data;
    assert Chunks(s.prev, p, n) == [chunk] + more;
    FirstKeepsSize(s, r, p, p0, data);
    var o := ReadChunk(r, p0, chunk);
    if o.Done? && o.rest == [] {
      ReadAllStep(r, p0, chunk, more, o.r, o.packet);
      if |p.body| > n {
        assert next[..|Basic(MINIMUM, p.channel)|] == Basic(MINIMUM, p.channel);
        SizeStays(o.r, p.channel, size, o.packet.(body := None), next, p.body[n..], n);
      } else {
        ReadNothing(o.r, o.packet.(body := None));
      }
      var run := ReadAll(r, p0, [chunk] + more);
      assert run.Some? ==> forall m :: m in run.value.complete ==> m.bodySize == size;
    } else {
      assert ReadAll(r, p0, [chunk] + more).None?;
    }
  }

  /** The data of the first chunk of a message. */
  function FirstPart(body: seq<byte>, n: nat): seq<byte> {
    if |body| <= n then body else body[..n]
  }

  /** An extended timestamp that is expected and missing, or present and not expected, loses the chunk border. */
  lemma BorderLost(s: Sender, r: Reader, p: Packet, p0: Incoming)
    requires Sendable(p) && r.chunkSize >= 1 && p0.body.None? && InStep(s, r, p.channel) && p.channel in s.prev
    requires Shrunk(s.prev, p) == MINIMUM && |s.prev[p.channel].body| == |p.body|
    requires !ExtensionAgrees(s, r, p)
    ensures var o := ReadChunk(r, p0, FirstHeader(s.prev, p) + FirstPart(p.body, r.chunkSize));
            !(o.Done? && o.rest == [])
  {
    hide Basic;
    hide Shrunk;
    hide Delta;
    hide ReadData;
    hide ReadBasic;
    hide FirstHeader;
    var t, v := Delta(s.prev, p), r.saved[p.channel];
    var b, e := Basic(MINIMUM, p.channel), Extension(t);
    BareHeader(s, p);
    var data := FirstPart(p.body, r.chunkSize);
    assert FirstHeader(s.prev, p) + data == b + (e + data);
    BasicReads(MINIMUM, p.channel, e + data);
    if v.timestamp == EXTENDED {
      assert e + data == data;
      ExtensionMissing(r, v, |p.body|, data);
    } else {
      ExtensionLeft(r, v, |p.body|, e, data);
    }
  }

  lemma WrongExtension(s: Sender, r: Reader, p: Packet, p0: Incoming)
    requires Sendable(p) && r.chunkSize >= 1 && p0.body.None? && InStep(s, r, p.channel) && p.channel in s.prev
    requires Shrunk(s.prev, p) == MINIMUM && |s.prev[p.channel].body| == |p.body|
    requires !ExtensionAgrees(s, r, p)
    ensures !ReadsBack(s, r, p, p0)
  {
    hide ReadChunk;
    hide Shrunk;
    hide ExtensionAgrees;
    hide NextHeader;
    hide InStep;
    BorderLost(s, r, p, p0);
    hide FirstHeader;
    CutParts(FirstHeader(s.prev, p), NextHeader(s.prev, p), p.body, r.chunkSize);
    assert Chunks(s.prev, p, r.chunkSize)[0] == FirstHeader(s.prev, p) + FirstPart(p.body, r.chunkSize);
  }

  lemma BareHeader(s: Sender, p: Packet)
    requires Sendable(p) && Shrunk(s.prev, p) == MINIMUM
    ensures FirstHeader(s.prev, p) == Basic(MINIMUM, p.channel) + Extension(Delta(s.prev, p))
  {
  }

  lemma ExtensionMissing(r: Reader, v: Incoming, size: nat, data: seq<byte>)
    requires v.bodySize == size && v.bytesRead == 0 && v.body.None? && |data| == Min(r.chunkSize, size)
    ensures |data| >= 4 ==> ReadData(r, v.(timestamp := FromBig32(data)), MINIMUM, true, data[4..]).Failed?
  {
  }

  lemma ExtensionLeft(r: Reader, v: Incoming, size: nat, e: seq<byte>, data: seq<byte>)
    requires v.bodySize == size && v.bytesRead == 0 && v.body.None? && |data| == Min(r.chunkSize, size) && |e| == 4
    ensures var o := ReadData(r, v, MINIMUM, false, e + data); o.Done? && |o.rest| == 4
  {
  }

  /**
    For channels already in use, and for large headers: a message comes through exactly when
    `ComesThrough`.  The only-if half is about reading each chunk to its exact end; what the reader makes
    of bytes that it takes for another chunk is not said.
   */
  lemma MessageComesThrough(s: Sender, r: Reader, p: Packet, p0: Incoming)
    requires Sendable(p) && r.chunkSize >= 1 && p0.body.None? && InStep(s, r, p.channel)
    requires p.headerType == LARGE || p.channel in s.prev
    ensures ReadsBack(s, r, p, p0) <==> ComesThrough(s, p)
  {
    hide ReadAll;
    hide ReadChunk;
    hide Chunks;
    if Shrunk(s.prev, p) >= SMALL && |s.prev[p.channel].body| != |p.body| {
      WrongSize(s, r, p, p0);
    } else if !ExtensionAgrees(s, r, p) {
      WrongExtension(s, r, p, p0);
    } else {
      UnderstoodDelivers(s, r, p, p0);
    }
  }
}
