/**
  Whole streams of chunks (rtmp_lib/rtmp.c): messages one after the other, and any interleaving of
  the chunks of several channels.
 */
module RtmpStreams {
  import opened Common
  import opened RtmpChunks
  import opened RtmpRoundTrip
  import opened RtmpWire

  // ---------------------------------------------------------------- many messages, on any channels

  /** Each message comes through after the ones before it, on whatever channels they are. */
  predicate Passes(s: Sender, ps: seq<Packet>): (ok: bool)
    ensures ok ==> forall p :: p in ps ==> Sendable(p)
    decreases |ps|
  {
    if ps == [] then true else
    assert ps == [ps[0]] + ps[1..];
    Sendable(ps[0]) && ComesThrough(s, ps[0]) && Passes(Sent(s, ps[0]), ps[1..])
  }

  ghost predicate AllInStep(s: Sender, r: Reader) {
    forall c: nat :: InStep(s, r, c)
  }

  function ChunksOfAll(s: Sender, ps: seq<Packet>, n: nat): seq<seq<byte>>
    requires n >= 1 && forall p :: p in ps ==> Sendable(p)
    decreases |ps|
  {
    if ps == [] then [] else Chunks(s.prev, ps[0], n) + ChunksOfAll(Sent(s, ps[0]), ps[1..], n)
  }

  /** The writer's tables after all the messages. */
  function SentAll(s: Sender, ps: seq<Packet>): Sender
    decreases |ps|
  {
    if ps == [] then s else SentAll(Sent(s, ps[0]), ps[1..])
  }

  predicate DeliversAll(ms: seq<Incoming>, ps: seq<Packet>) {
    |ms| == |ps| && forall i :: 0 <= i < |ps| ==> Delivers(ms[i], ps[i])
  }

  lemma ThroughIsUnderstood(s: Sender, r: Reader, p: Packet, p0: Incoming)
    requires Sendable(p) && r.chunkSize >= 1 && p0.body.None? && InStep(s, r, p.channel) && ComesThrough(s, p)
    ensures Understood(s, r, p, p0)
  {
  }

  /** After a message that comes through, both ends agree about its channel again. */
  lemma StaysInStep(s: Sender, r: Reader, p: Packet, p0: Incoming)
    requires Understood(s, r, p, p0) && ComesThrough(s, p)
    ensures var x := Opened(s, r, p).timestamp;
            InStep(Sent(s, p), Settled(r, Filled(s, r, p), FieldSeen(s, r, p), x), p.channel)
    ensures Completed(r, Filled(s, r, p), Opened(s, r, p).timestamp).timestamp == p.timestamp
  {
    var x, t := Opened(s, r, p).timestamp, Delta(s.prev, p);
    assert x == t;
    if Shrunk(s.prev, p) != LARGE {
      var last := s.prev[p.channel].timestamp;
      StampsAdd(last, t, x);
      assert (t as int + last as int) % 0x1_0000_0000 == p.timestamp;
    }
  }

  /** The other channels are as they were, on both ends. */
  lemma OthersStayInStep(s: Sender, r: Reader, p: Packet, v: Incoming, f: u32, x: u32, d: nat)
    requires InStep(s, r, d) && v.channel == p.channel != d
    ensures InStep(Sent(s, p), Settled(r, v, f, x), d)
  {
    hide Shrunk;
    hide Delta;
    hide Completed;
  }

  lemma AllStayInStep(s: Sender, r: Reader, p: Packet, p0: Incoming)
    requires Understood(s, r, p, p0) && ComesThrough(s, p) && AllInStep(s, r)
    ensures AllInStep(Sent(s, p), Settled(r, Filled(s, r, p), FieldSeen(s, r, p), Opened(s, r, p).timestamp))
  {
    StaysInStep(s, r, p, p0);
    var v, f, x := Filled(s, r, p), FieldSeen(s, r, p), Opened(s, r, p).timestamp;
    assert v.channel == p.channel;
    forall d: nat
      ensures InStep(Sent(s, p), Settled(r, v, f, x), d)
    {
      if d != p.channel {
        OthersStayInStep(s, r, p, v, f, x, d);
      }
    }
  }

  lemma {:induction false} ReadAllJoin(r: Reader, p: Incoming, a: seq<seq<byte>>, b: seq<seq<byte>>)
    requires ReadAll(r, p, a).Some?
    ensures var ra := ReadAll(r, p, a).value;
            ReadAll(r, p, a + b) == match ReadAll(ra.r, ra.packet, b)
                                    case None => None
                                    case Some(rb) => Some(rb.(complete := ra.complete + rb.complete))
    decreases |a|
  {
    hide ReadChunk;
    if a == [] {
      assert a + b == b;
      assert forall x: seq<Incoming> :: [] + x == x;
    } else {
      var o := ReadChunk(r, p, a[0]);
      assert (a + b)[1..] == a[1..] + b;
      var q := o.packet.(body := None);
      ReadAllJoin(o.r, q, a[1..], b);
      assert a == [a[0]] + a[1..];
      assert a + b == [a[0]] + (a[1..] + b);
      ReadAllStep(r, p, a[0], a[1..], o.r, o.packet);
      ReadAllStep(r, p, a[0], a[1..] + b, o.r, o.packet);
      assert forall x: seq<Incoming>, y: seq<Incoming>, z: seq<Incoming> :: x + (y + z) == (x + y) + z;
    }
  }

  /** Every run of messages that passes is read back, message by message, chunk by chunk. */
  lemma {:induction false} ChunksOfMessagesRead(s: Sender, r: Reader, ps: seq<Packet>, p0: Incoming)
    returns (run: Run)
    requires Passes(s, ps) && AllInStep(s, r) && r.chunkSize >= 1 && p0.body.None?
    ensures ReadAll(r, p0, ChunksOfAll(s, ps, r.chunkSize)) == Some(run)
    ensures DeliversAll(run.complete, ps) && run.packet.body.None?
    ensures AllInStep(SentAll(s, ps), run.r) && run.r.chunkSize == r.chunkSize
    decreases |ps|
  {
    hide ReadAll;
    hide Chunks;
    hide Opened;
    hide FieldSeen;
    hide Filled;
    if ps == [] {
      ReadNothing(r, p0);
      run := Run(r, p0, []);
    } else {
      var p := ps[0];
      ThroughIsUnderstood(s, r, p, p0);
      MessageReads(s, r, p, p0);
      UnderstoodDelivers(s, r, p, p0);
      StaysInStep(s, r, p, p0);
      AllStayInStep(s, r, p, p0);
      hide AllInStep;
      var e := Ending(r, Filled(s, r, p), FieldSeen(s, r, p), Opened(s, r, p).timestamp);
      assert e.r.chunkSize == r.chunkSize;
      var more := ChunksOfMessagesRead(Sent(s, p), e.r, ps[1..], e.packet);
      ReadAllJoin(r, p0, Chunks(s.prev, p, r.chunkSize), ChunksOfAll(Sent(s, p), ps[1..], r.chunkSize));
      run := more.(complete := e.complete + more.complete);
    }
  }

  /**
    Round trip over the wire: from the bytes that are written for a run of messages that passes, on any
    channels, one stream without any borders, the reader returns exactly these messages, in the order in
    which they were sent, and both ends are left in step for more.
   */
  lemma MessagesRead(s: Sender, r: Reader, ps: seq<Packet>, p0: Incoming)
    requires Passes(s, ps) && AllInStep(s, r) && r.chunkSize >= 1 && p0.body.None?
    ensures var run := ReadWire(r, p0, Join(ChunksOfAll(s, ps, r.chunkSize)));
            && run.Some? && DeliversAll(run.value.complete, ps)
            && AllInStep(SentAll(s, ps), run.value.r) && run.value.packet.body.None?
  {
    hide ReadAll;
    hide ReadWire;
    hide Passes;
    hide AllInStep;
    var run := ChunksOfMessagesRead(s, r, ps, p0);
    WireReads(r, p0, ChunksOfAll(s, ps, r.chunkSize));
  }

  /**
    Where the code and section 5.3.1.2.4 part: a message with the timestamp, the size and the type of
    the one before it goes out without a header, and the reader then adds the previous timestamp field
    once more.  After the first message was read, the second is read back only if that field was zero.
   */
  lemma RepeatedTimestamp(s: Sender, r: Reader, p: Packet, q: Packet, p0: Incoming) returns (first: Run)
    requires Sendable(p) && Sendable(q) && r.chunkSize >= 1 && p0.body.None? && InStep(s, r, p.channel)
    requires p.headerType == LARGE && q.headerType == MEDIUM && q.channel == p.channel
    requires q.timestamp == p.timestamp && q.packetType == p.packetType && |q.body| == |p.body|
    requires q.infoField2 == p.infoField2
    ensures ReadAll(r, p0, Chunks(s.prev, p, r.chunkSize)) == Some(first)
    ensures |first.complete| == 1 && Delivers(first.complete[0], p)
    ensures first.r.chunkSize == r.chunkSize && first.packet.body.None?
    ensures ReadsBack(Sent(s, p), first.r, q, first.packet) <==> p.timestamp == 0
  {
    hide ReadAll;
    hide Chunks;
    ThroughIsUnderstood(s, r, p, p0);
    MessageReads(s, r, p, p0);
    UnderstoodDelivers(s, r, p, p0);
    StaysInStep(s, r, p, p0);
    first := Ending(r, Filled(s, r, p), FieldSeen(s, r, p), Opened(s, r, p).timestamp);
    MessageComesThrough(Sent(s, p), first.r, q, first.packet);
  }

  // ---------------------------------------------------------------- several channels

  datatype Tagged = Tagged(channel: nat, bytes: seq<byte>)

  function OnChannel(chunks: seq<Tagged>, c: nat): (f: seq<seq<byte>>)
    decreases |chunks|
  {
    if chunks == [] then []
    else (if chunks[0].channel == c then [chunks[0].bytes] else []) + OnChannel(chunks[1..], c)
  }

  function Bytes(chunks: seq<Tagged>): seq<seq<byte>>
    decreases |chunks|
  {
    if chunks == [] then [] else [chunks[0].bytes] + Bytes(chunks[1..])
  }

  function PacketsOn(ms: seq<Incoming>, c: nat): seq<Incoming>
    decreases |ms|
  {
    if ms == [] then [] else (if ms[0].channel == c then [ms[0]] else []) + PacketsOn(ms[1..], c)
  }

  /** The two readers have the same memory of channel `c`. */
  predicate Same(r1: Reader, r2: Reader, c: nat) {
    && r1.chunkSize == r2.chunkSize
    && (c in r1.saved <==> c in r2.saved) && (c in r1.saved ==> r1.saved[c] == r2.saved[c])
    && (c in r1.stamps <==> c in r2.stamps) && (c in r1.stamps ==> r1.stamps[c] == r2.stamps[c])
  }

  /** The chunk starts channel `c` with a large header, or the channel is in use. */
  predicate Anchored(r: Reader, c: nat, w: seq<byte>) {
    var b := ReadBasic(w);
    b.Some? && b.value.channel == c && (b.value.h == LARGE || c in r.saved)
    && (c in r.saved ==> r.saved[c].channel == c)
  }

  ghost predicate OthersKept(r: Reader, r': Reader, c: nat) {
    r'.chunkSize == r.chunkSize && forall d :: d != c ==> Same(r, r', d)
  }

  lemma FinishLocal(r1: Reader, r2: Reader, p: Incoming, ext: bool, rest: seq<byte>, c: nat)
    requires Same(r1, r2, c) && p.channel == c
    ensures var o1, o2 := Finish(r1, p, ext, rest), Finish(r2, p, ext, rest);
            && o1.Done? && o2.Done? && o1.packet == o2.packet && o1.rest == o2.rest
            && Same(o1.r, o2.r, c) && OthersKept(r1, o1.r, c)
            && c in o1.r.saved && o1.r.saved[c].channel == c && o1.packet.channel == c
  {
  }

  lemma DataLocal(r1: Reader, r2: Reader, p: Incoming, h: HeaderType, ext: bool, w: seq<byte>, c: nat)
    requires Same(r1, r2, c) && p.channel == c
    ensures var o1, o2 := ReadData(r1, p, h, ext, w), ReadData(r2, p, h, ext, w);
            if o1.Done? then
              && o2.Done? && o1.packet == o2.packet && o1.rest == o2.rest
              && Same(o1.r, o2.r, c) && OthersKept(r1, o1.r, c)
              && c in o1.r.saved && o1.r.saved[c].channel == c && o1.packet.channel == c
            else !o2.Done?
  {
    hide Finish;
    hide OthersKept;
    var q := if p.bodySize > 0 && p.body.None?
             then p.(body := Some(Zeros(p.bodySize)), bytesRead := 0, headerType := h) else p;
    var n := Min(r1.chunkSize, q.bodySize - q.bytesRead);
    if !(n < 0 || (n > 0 && (q.body.None? || q.bytesRead + n > |q.body.value|))) && |w| >= n {
      var body := if n == 0 then q.body
                  else Some(q.body.value[..q.bytesRead] + w[..n] + q.body.value[q.bytesRead + n..]);
      FinishLocal(r1, r2, q.(body := body, bytesRead := q.bytesRead + n), ext, w[n..], c);
    }
  }

  /** What one chunk does depends on its own channel only, and changes nothing else. */
  lemma ChunkIsLocal(r1: Reader, r2: Reader, p1: Incoming, p2: Incoming, w: seq<byte>, c: nat)
    requires Same(r1, r2, c) && Anchored(r1, c, w) && p1.body.None? && p2.body.None?
    ensures var o1, o2 := ReadChunk(r1, p1, w), ReadChunk(r2, p2, w);
            if o1.Done? then
              && o2.Done? && o1.packet == o2.packet && o1.rest == o2.rest
              && Same(o1.r, o2.r, c) && OthersKept(r1, o1.r, c)
              && c in o1.r.saved && o1.r.saved[c].channel == c && o1.packet.channel == c
            else !o2.Done?
  {
    hide ReadData;
    hide OthersKept;
    var b := ReadBasic(w).value;
    var m := w[b.size..];
    var n := MessageHeaderSize(b.h);
    if |m| >= n {
      var q := WithMessageHeader(Inherited(r1, p1, b), m, b.h);
      assert q == WithMessageHeader(Inherited(r2, p2, b), m, b.h);
      if q.timestamp != EXTENDED {
        DataLocal(r1, r2, q, b.h, false, m[n..], c);
      } else if |m| >= n + 4 {
        DataLocal(r1, r2, q.(timestamp := FromBig32(m[n..])), b.h, true, m[n + 4..], c);
      }
    }
  }

  /** Every chunk of the list belongs to the channel it is tagged with. */
  predicate WellTagged(chunks: seq<Tagged>) {
    forall i :: 0 <= i < |chunks| ==>
      ReadBasic(chunks[i].bytes).Some? && ReadBasic(chunks[i].bytes).value.channel == chunks[i].channel
  }

  /** The first chunk on each channel is anchored. */
  ghost predicate WellStarted(r: Reader, chunks: seq<Tagged>) {
    forall c :: OnChannel(chunks, c) != [] ==> Anchored(r, c, OnChannel(chunks, c)[0])
  }

  predicate AllOn(chunks: seq<seq<byte>>, c: nat) {
    forall i :: 0 <= i < |chunks| ==> ReadBasic(chunks[i]).Some? && ReadBasic(chunks[i]).value.channel == c
  }

  lemma PacketsOnCons(m: Incoming, ms: seq<Incoming>, c: nat)
    ensures PacketsOn([m] + ms, c) == (if m.channel == c then [m] else []) + PacketsOn(ms, c)
  {
    assert ([m] + ms)[1..] == ms;
  }

  /** A stream on one channel reads the same from any two readers with the same memory of it. */
  lemma {:induction false} StreamIsLocal(r1: Reader, r2: Reader, p1: Incoming, p2: Incoming, chunks: seq<seq<byte>>,
                                         c: nat)
    requires Same(r1, r2, c) && AllOn(chunks, c) && p1.body.None? && p2.body.None?
    requires chunks != [] ==> Anchored(r1, c, chunks[0])
    ensures var a, b := ReadAll(r1, p1, chunks), ReadAll(r2, p2, chunks);
            if a.Some? then b.Some? && a.value.complete == b.value.complete && Same(a.value.r, b.value.r, c)
                            && PacketsOn(a.value.complete, c) == a.value.complete
            else b.None?
    decreases |chunks|
  {
    hide ReadChunk;
    hide OthersKept;
    if chunks != [] {
      ChunkIsLocal(r1, r2, p1, p2, chunks[0], c);
      var o1, o2 := ReadChunk(r1, p1, chunks[0]), ReadChunk(r2, p2, chunks[0]);
      if o1.Done? && o1.rest == [] {
        var more := chunks[1..];
        if more != [] {
          assert more[0] == chunks[1];
          assert Anchored(o1.r, c, more[0]);
        }
        StreamIsLocal(o1.r, o2.r, o1.packet.(body := None), o2.packet.(body := None), more, c);
        var a := ReadAll(o1.r, o1.packet.(body := None), more);
        if a.Some? {
          PacketsOnCons(o1.packet, a.value.complete, c);
          assert [] + a.value.complete == a.value.complete;
        }
      }
    }
  }

  lemma {:induction false} OnChannelTagged(chunks: seq<Tagged>, c: nat)
    requires WellTagged(chunks)
    ensures AllOn(OnChannel(chunks, c), c)
    decreases |chunks|
  {
    hide ReadBasic;
    if chunks != [] {
      var more := chunks[1..];
      assert forall i :: 0 <= i < |more| ==> more[i] == chunks[i + 1];
      OnChannelTagged(more, c);
      if chunks[0].channel == c {
        var f := [chunks[0].bytes] + OnChannel(more, c);
        assert forall i :: 1 <= i < |f| ==> f[i] == OnChannel(more, c)[i - 1];
      }
    }
  }

  /** What reading the channel alone yields. */
  function Alone(r: Reader, p: Incoming, chunks: seq<Tagged>, c: nat): Option<Run> {
    ReadAll(r, p, OnChannel(chunks, c))
  }

  ghost predicate EachAloneReads(r: Reader, p: Incoming, chunks: seq<Tagged>) {
    forall c: nat :: Alone(r, p, chunks, c).Some?
  }

  /** The first chunk of an interleaving: afterwards every channel alone still reads its rest. */
  lemma FirstOfMany(r: Reader, p: Incoming, chunks: seq<Tagged>) returns (r': Reader, p': Incoming)
    requires WellTagged(chunks) && WellStarted(r, chunks) && EachAloneReads(r, p, chunks) && p.body.None?
    requires chunks != []
    ensures ReadChunk(r, p, chunks[0].bytes) == Done(r', p', [])
    ensures p'.channel == chunks[0].channel && OthersKept(r, r', chunks[0].channel)
    ensures WellTagged(chunks[1..]) && WellStarted(r', chunks[1..])
    ensures EachAloneReads(r', p'.(body := None), chunks[1..])
    ensures forall c: nat :: Alone(r, p, chunks, c).value.complete
                          == (if IsReady(p') && c == p'.channel then [p'] else [])
                             + Alone(r', p'.(body := None), chunks[1..], c).value.complete
    ensures forall c: nat ::
              Same(Alone(r, p, chunks, c).value.r, Alone(r', p'.(body := None), chunks[1..], c).value.r, c)
  {
    hide ReadChunk;
    hide ReadBasic;
    var d, w, more := chunks[0].channel, chunks[0].bytes, chunks[1..];
    assert forall i :: 0 <= i < |more| ==> more[i] == chunks[i + 1];
    assert OnChannel(chunks, d) == [w] + OnChannel(more, d);
    assert OnChannel(chunks, d)[0] == w;
    assert Alone(r, p, chunks, d).Some?;
    ChunkIsLocal(r, r, p, p, w, d);
    var o := ReadChunk(r, p, w);
    r', p' := o.r, o.packet;
    var q := p'.(body := None);
    ReadAllStep(r, p, w, OnChannel(more, d), r', p');
    forall c: nat
      ensures Alone(r', q, more, c).Some?
      ensures Alone(r, p, chunks, c).value.complete
           == (if IsReady(p') && c == p'.channel then [p'] else []) + Alone(r', q, more, c).value.complete
      ensures Same(Alone(r, p, chunks, c).value.r, Alone(r', q, more, c).value.r, c)
      ensures OnChannel(more, c) != [] ==> Anchored(r', c, OnChannel(more, c)[0])
    {
      RestAlone(r, p, chunks, r', p', c);
    }
  }

  lemma RestAlone(r: Reader, p: Incoming, chunks: seq<Tagged>, r': Reader, p': Incoming, c: nat)
    requires WellTagged(chunks) && WellStarted(r, chunks) && EachAloneReads(r, p, chunks) && p.body.None?
    requires chunks != [] && ReadChunk(r, p, chunks[0].bytes) == Done(r', p', [])
    requires var d := chunks[0].channel;
             p'.channel == d && OthersKept(r, r', d) && d in r'.saved && r'.saved[d].channel == d
    ensures var q, more := p'.(body := None), chunks[1..];
            && Alone(r', q, more, c).Some?
            && Alone(r, p, chunks, c).value.complete
               == (if IsReady(p') && c == p'.channel then [p'] else []) + Alone(r', q, more, c).value.complete
            && Same(Alone(r, p, chunks, c).value.r, Alone(r', q, more, c).value.r, c)
            && (OnChannel(more, c) != [] ==> Anchored(r', c, OnChannel(more, c)[0]))
  {
    hide ReadChunk;
    hide ReadBasic;
    var d, w, more := chunks[0].channel, chunks[0].bytes, chunks[1..];
    var q := p'.(body := None);
    assert forall i :: 0 <= i < |more| ==> more[i] == chunks[i + 1];
    OnChannelTagged(more, c);
    assert Alone(r, p, chunks, c).Some?;
    if c == d {
      assert OnChannel(chunks, d) == [w] + OnChannel(more, d);
      ReadAllStep(r, p, w, OnChannel(more, d), r', p');
    } else {
      assert OnChannel(chunks, c) == [] + OnChannel(more, c) == OnChannel(more, c);
      assert Same(r, r', c);
      StreamIsLocal(r, r', p, q, OnChannel(more, c), c);
      var x := Alone(r', q, more, c).value.complete;
      assert [] + x == x;
    }
  }

  lemma SameTrans(a: Reader, b: Reader, d: Reader, c: nat)
    requires Same(a, b, c) && Same(b, d, c)
    ensures Same(a, d, c) && Same(d, a, c)
  {
  }

  /**
    Any interleaving of the chunks of several channels is reassembled, channel by channel, as if each
    channel were read alone: the same packets, and the same memory at the end.
   */
  lemma {:induction false} InterleavingReads(r: Reader, p: Incoming, chunks: seq<Tagged>)
    requires WellTagged(chunks) && WellStarted(r, chunks) && EachAloneReads(r, p, chunks) && p.body.None?
    ensures var run := ReadAll(r, p, Bytes(chunks));
            && run.Some?
            && (forall c: nat :: PacketsOn(run.value.complete, c) == Alone(r, p, chunks, c).value.complete)
            && (forall c: nat :: Same(run.value.r, Alone(r, p, chunks, c).value.r, c))
    decreases |chunks|
  {
    hide ReadChunk;
    hide ReadBasic;
    if chunks == [] {
      ReadNothing(r, p);
    } else {
      var r', p' := FirstOfMany(r, p, chunks);
      var q := p'.(body := None);
      InterleavingReads(r', q, chunks[1..]);
      ReadAllStep(r, p, chunks[0].bytes, Bytes(chunks[1..]), r', p');
      assert Bytes(chunks) == [chunks[0].bytes] + Bytes(chunks[1..]);
      var rest := ReadAll(r', q, Bytes(chunks[1..])).value;
      forall c: nat
        ensures PacketsOn((if IsReady(p') then [p'] else []) + rest.complete, c)
             == (if IsReady(p') && c == p'.channel then [p'] else []) + PacketsOn(rest.complete, c)
        ensures Same(rest.r, Alone(r, p, chunks, c).value.r, c)
      {
        if IsReady(p') {
          PacketsOnCons(p', rest.complete, c);
        } else {
          assert [] + rest.complete == rest.complete;
          assert [] + PacketsOn(rest.complete, c) == PacketsOn(rest.complete, c);
        }
        SameTrans(rest.r, Alone(r', q, chunks[1..], c).value.r, Alone(r, p, chunks, c).value.r, c);
      }
    }
  }

  /** The messages for each channel can be sent one after the other. */
  ghost predicate PassOnAll(s: Sender, r: Reader, ps: map<nat, seq<Packet>>) {
    AllInStep(s, r) && forall c :: c in ps ==> Passes(s, ps[c]) && forall p :: p in ps[c] ==> p.channel == c
  }

  /** `chunks` is some interleaving of the chunk sequences of all the channels. */
  ghost predicate Interleaves(s: Sender, chunks: seq<Tagged>, ps: map<nat, seq<Packet>>, n: nat)
    requires n >= 1 && forall c :: c in ps ==> forall p :: p in ps[c] ==> Sendable(p)
  {
    forall c: nat :: OnChannel(chunks, c) == if c in ps then ChunksOfAll(s, ps[c], n) else []
  }

  lemma FirstAnchored(s: Sender, r: Reader, c: nat, ps: seq<Packet>, n: nat)
    requires Passes(s, ps) && ps != [] && ps[0].channel == c && InStep(s, r, c) && n >= 1
    requires c in r.saved ==> r.saved[c].channel == c
    ensures ChunksOfAll(s, ps, n) != [] && Anchored(r, c, ChunksOfAll(s, ps, n)[0])
  {
    hide Basic;
    hide ReadBasic;
    hide Chunks;
    var p := ps[0];
    var chunks := Chunks(s.prev, p, n);
    var tail := FirstBytes(s, p, n);
    assert ChunksOfAll(s, ps, n)[0] == chunks[0];
    BasicReads(Shrunk(s.prev, p), c, tail);
  }

  lemma FirstBytes(s: Sender, p: Packet, n: nat) returns (tail: seq<byte>)
    requires Sendable(p) && n >= 1
    ensures var chunks := Chunks(s.prev, p, n);
            chunks != [] && chunks[0] == Basic(Shrunk(s.prev, p), p.channel) + tail
  {
    var first := FirstHeader(s.prev, p);
    var rest := MessageHeader(Shrunk(s.prev, p), Delta(s.prev, p), p) + Extension(Delta(s.prev, p));
    var data := p.body[..Min(n, |p.body|)];
    HeaderAssociates(s, p);
    FirstOfCut(first, NextHeader(s.prev, p), p.body, n);
    hide *;
    tail := rest + data;
  }

  lemma FirstOfCut(header: seq<byte>, next: seq<byte>, body: seq<byte>, n: nat)
    requires n >= 1
    ensures Cut(header, next, body, n) != [] && Cut(header, next, body, n)[0] == header + body[..Min(n, |body|)]
  {
  }

  lemma HeaderAssociates(s: Sender, p: Packet)
    requires Sendable(p)
    ensures FirstHeader(s.prev, p) == Basic(Shrunk(s.prev, p), p.channel)
                                      + (MessageHeader(Shrunk(s.prev, p), Delta(s.prev, p), p)
                                         + Extension(Delta(s.prev, p)))
  {
    hide Basic;
    hide Shrunk;
    hide Delta;
    hide MessageHeader;
    hide Extension;
  }

  /**
    The messages of several channels, each channel's cut into chunks, these interleaved in any order and
    written as one stream of bytes: for every channel the reader returns exactly its messages, in order.
   */
  lemma InterleavedMessagesRead(s: Sender, r: Reader, p0: Incoming, ps: map<nat, seq<Packet>>, chunks: seq<Tagged>)
    requires r.chunkSize >= 1 && p0.body.None? && WellTagged(chunks)
    requires PassOnAll(s, r, ps) && Interleaves(s, chunks, ps, r.chunkSize)
    requires forall c :: c in r.saved ==> r.saved[c].channel == c
    ensures var run := ReadWire(r, p0, Join(Bytes(chunks)));
            && run.Some?
            && (forall c :: c in ps ==> DeliversAll(PacketsOn(run.value.complete, c), ps[c]))
            && (forall c: nat :: c !in ps ==> PacketsOn(run.value.complete, c) == [])
  {
    hide ReadAll;
    hide ReadWire;
    hide ReadBasic;
    hide Passes;
    forall c: nat
      ensures Alone(r, p0, chunks, c).Some?
      ensures c in ps ==> DeliversAll(Alone(r, p0, chunks, c).value.complete, ps[c])
      ensures c !in ps ==> Alone(r, p0, chunks, c).value.complete == []
      ensures OnChannel(chunks, c) != [] ==> Anchored(r, c, OnChannel(chunks, c)[0])
    {
      assert InStep(s, r, c);
      assert OnChannel(chunks, c) == if c in ps then ChunksOfAll(s, ps[c], r.chunkSize) else [];
      if c in ps {
        var run := ChunksOfMessagesRead(s, r, ps[c], p0);
        if ps[c] != [] {
          FirstAnchored(s, r, c, ps[c], r.chunkSize);
        }
      } else {
        ReadNothing(r, p0);
      }
    }
    InterleavingReads(r, p0, chunks);
    WireReads(r, p0, Bytes(chunks));
  }
}
