/** Writer and reader of rtmp_lib/rtmp.c put together, with nothing but bytes between them. */
module RtmpTransfer {
  import opened Common
  import opened RtmpChunks
  import opened RtmpRoundTrip
  import opened RtmpWire
  import opened RtmpStreams
  import opened RtmpReader
  import opened RtmpWriter

  /** A message as a caller of `RTMP_SendPacket` makes it: a buffer with the reserve in front of the body. */
  method SendMessage(w: Writer, p: Packet)
    requires Sendable(p) && w.chunkSize >= 1
    modifies w
    ensures w.chunkSize == old(w.chunkSize)
    ensures w.wire == old(w.wire) + Join(Chunks(old(w.prev), p, w.chunkSize))
    ensures Sender(w.prev, w.fields) == Sent(Sender(old(w.prev), old(w.fields)), p)
  {
    hide Chunks;
    hide Join;
    hide Sent;
    var body := new byte[RESERVE + |p.body|];
    Copy(body, RESERVE, p.body);
    assert body[RESERVE..] == body[..][RESERVE..RESERVE + |p.body|] == p.body;
    var h := w.SendPacket(p.headerType, p.packetType, p.channel, p.timestamp, p.infoField2, body);
  }

  lemma NextChunks(s: Sender, ps: seq<Packet>, n: nat)
    requires n >= 1 && ps != [] && forall p :: p in ps ==> Sendable(p)
    ensures Join(ChunksOfAll(s, ps, n))
            == Join(Chunks(s.prev, ps[0], n)) + Join(ChunksOfAll(Sent(s, ps[0]), ps[1..], n))
  {
    hide Chunks;
    hide Join;
    JoinBoth(Chunks(s.prev, ps[0], n), ChunksOfAll(Sent(s, ps[0]), ps[1..], n));
  }

  /** Messages one after the other. */
  method SendAll(w: Writer, ps: seq<Packet>)
    requires w.chunkSize >= 1 && forall p :: p in ps ==> Sendable(p)
    modifies w
    ensures w.chunkSize == old(w.chunkSize)
    ensures w.wire == old(w.wire) + Join(ChunksOfAll(Sender(old(w.prev), old(w.fields)), ps, w.chunkSize))
    ensures Sender(w.prev, w.fields) == SentAll(Sender(old(w.prev), old(w.fields)), ps)
  {
    hide Chunks;
    hide ChunksOfAll;
    hide Join;
    hide Sent;
    hide Sendable;
    var i := 0;
    ghost var n, start := w.chunkSize, Sender(w.prev, w.fields);
    ghost var goal := w.wire + Join(ChunksOfAll(Sender(w.prev, w.fields), ps, n));
    assert ps[0..] == ps;
    while i < |ps|
      invariant i <= |ps| && w.chunkSize == n
      invariant SentAll(start, ps) == SentAll(Sender(w.prev, w.fields), ps[i..])
      invariant goal == w.wire + Join(ChunksOfAll(Sender(w.prev, w.fields), ps[i..], n))
    {
      ghost var s, wire := Sender(w.prev, w.fields), w.wire;
      assert ps[i..][1..] == ps[i + 1..];
      NextChunks(s, ps[i..], n);
      SendMessage(w, ps[i]);
      Grouped(wire, Join(Chunks(s.prev, ps[i], n)), Join(ChunksOfAll(Sent(s, ps[i]), ps[i + 1..], n)));
      i := i + 1;
    }
    NoChunks(Sender(w.prev, w.fields), n);
    assert ps[i..] == [] && w.wire + [] == w.wire;
  }

  lemma Grouped(a: seq<byte>, b: seq<byte>, c: seq<byte>)
    ensures a + (b + c) == a + b + c
  {
  }

  lemma NoChunks(s: Sender, n: nat)
    requires n >= 1
    ensures Join(ChunksOfAll(s, [], n)) == []
  {
  }

  /**
    Round trip from writer to reader: a run of messages that passes, on any channels, is written as bytes,
    the bytes are read, and what comes out is the messages, in the order in which they were sent; both ends
    are left in step for the next run.
   */
  method Transfer(w: Writer, r: Receiver, ps: seq<Packet>, p0: Incoming)
    returns (ms: seq<Incoming>, last: Incoming)
    requires w.wire == [] && w.chunkSize == r.chunkSize >= 1 && p0.body.None?
    requires Passes(Sender(w.prev, w.fields), ps) && AllInStep(Sender(w.prev, w.fields), r.State())
    modifies w, r
    ensures DeliversAll(ms, ps)
    ensures AllInStep(Sender(w.prev, w.fields), r.State()) && last.body.None?
  {
    hide Passes;
    hide AllInStep;
    hide ReadWire;
    hide ChunksOfAll;
    hide Join;
    hide DeliversAll;
    MessagesRead(Sender(w.prev, w.fields), r.State(), ps, p0);
    ghost var sent := Join(ChunksOfAll(Sender(w.prev, w.fields), ps, w.chunkSize));
    SendAll(w, ps);
    assert w.wire == [] + sent == sent;
    r.input := w.wire;
    var ok;
    ok, ms, last := r.ReadStream(p0);
  }
}
