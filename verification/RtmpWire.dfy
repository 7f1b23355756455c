/**
  The wire is one stream of bytes (rtmp_lib/rtmp.c): the reader is not told where chunks begin, and finds
  the borders that the writer has made.
 */
module RtmpWire {
  import opened Common
  import opened RtmpChunks
  import opened RtmpRoundTrip

  lemma DataShortens(r: Reader, p: Incoming, h: HeaderType, ext: bool, w: seq<byte>)
    ensures ReadData(r, p, h, ext, w).Done? ==> |ReadData(r, p, h, ext, w).rest| <= |w|
  {
  }

  /** A call that succeeds takes a byte at least. */
  lemma ChunkShortens(r: Reader, p: Incoming, w: seq<byte>)
    ensures ReadChunk(r, p, w).Done? ==> |ReadChunk(r, p, w).rest| < |w|
  {
    hide ReadData;
    hide WithMessageHeader;
    hide FromBig32;
    var b := ReadBasic(w);
    if b.Some? && |w[b.value.size..]| >= MessageHeaderSize(b.value.h) {
      var m, n := w[b.value.size..], MessageHeaderSize(b.value.h);
      assert |m| < |w|;
      var q := WithMessageHeader(Inherited(r, p, b.value), m, b.value.h);
      if q.timestamp != EXTENDED {
        DataShortens(r, q, b.value.h, false, m[n..]);
      } else if |m| >= n + 4 {
        DataShortens(r, q.(timestamp := FromBig32(m[n..])), b.value.h, true, m[n + 4..]);
      }
    }
  }

  /** Calls of `RTMP_ReadPacket` one after the other, until the input is used up. */
  function ReadWire(r: Reader, p: Incoming, w: seq<byte>): Option<Run>
    decreases |w|
  {
    if w == [] then Some(Run(r, p, [])) else
    ChunkShortens(r, p, w);
    match ReadChunk(r, p, w)
    case Done(r', p', rest) =>
      (match ReadWire(r', p'.(body := None), rest)
       case None => None
       case Some(run) => Some(run.(complete := (if IsReady(p') then [p'] else []) + run.complete)))
    case _ => None
  }

  lemma MoreData(r: Reader, p: Incoming, h: HeaderType, ext: bool, w: seq<byte>, more: seq<byte>)
    requires ReadData(r, p, h, ext, w).Done?
    ensures var o := ReadData(r, p, h, ext, w);
            ReadData(r, p, h, ext, w + more) == Done(o.r, o.packet, o.rest + more)
  {
    var q := if p.bodySize > 0 && p.body.None?
             then p.(body := Some(Zeros(p.bodySize)), bytesRead := 0, headerType := h) else p;
    var n := Min(r.chunkSize, q.bodySize - q.bytesRead);
    assert (w + more)[..n] == w[..n] && (w + more)[n..] == w[n..] + more;
  }

  lemma MoreBasic(w: seq<byte>, more: seq<byte>)
    requires ReadBasic(w).Some?
    ensures ReadBasic(w + more) == ReadBasic(w)
    ensures (w + more)[ReadBasic(w).value.size..] == w[ReadBasic(w).value.size..] + more
  {
  }

  lemma MoreHeader(p: Incoming, m: seq<byte>, more: seq<byte>, h: HeaderType)
    requires |m| >= MessageHeaderSize(h)
    ensures WithMessageHeader(p, m + more, h) == WithMessageHeader(p, m, h)
  {
    assert h <= MEDIUM ==> (m + more)[3..] == m[3..] + more && (h == LARGE ==> (m + more)[7..] == m[7..] + more);
  }

  /** A call does the same when more bytes follow its chunk; they stay in the input. */
  lemma MoreInput(r: Reader, p: Incoming, w: seq<byte>, more: seq<byte>)
    requires ReadChunk(r, p, w).Done?
    ensures var o := ReadChunk(r, p, w);
            ReadChunk(r, p, w + more) == Done(o.r, o.packet, o.rest + more)
  {
    hide ReadBasic;
    hide ReadData;
    hide WithMessageHeader;
    hide Inherited;
    hide FromBig32;
    MoreBasic(w, more);
    var b := ReadBasic(w).value;
    var m, n := w[b.size..], MessageHeaderSize(b.h);
    MoreHeader(Inherited(r, p, b), m, more, b.h);
    var q := WithMessageHeader(Inherited(r, p, b), m, b.h);
    assert (m + more)[n..] == m[n..] + more;
    if q.timestamp == EXTENDED {
      assert (m + more)[n + 4..] == m[n + 4..] + more;
      MoreNumber(m[n..], more);
      MoreData(r, q.(timestamp := FromBig32(m[n..])), b.h, true, m[n + 4..], more);
    } else {
      MoreData(r, q, b.h, false, m[n..], more);
    }
  }

  lemma MoreNumber(m: seq<byte>, more: seq<byte>)
    requires |m| >= 4
    ensures FromBig32(m + more) == FromBig32(m)
  {
  }

  /**
    What is read when every chunk is handed over by itself is read from the flat stream too: the reader
    finds the chunk borders.
   */
  lemma {:induction false} WireReads(r: Reader, p: Incoming, chunks: seq<seq<byte>>)
    requires ReadAll(r, p, chunks).Some?
    ensures ReadWire(r, p, Join(chunks)) == ReadAll(r, p, chunks)
    decreases |chunks|
  {
    hide ReadChunk;
    if chunks != [] {
      var w, more := chunks[0], Join(chunks[1..]);
      var o := ReadChunk(r, p, w);
      ChunkShortens(r, p, w);
      MoreInput(r, p, w, more);
      assert [] + more == more;
      WireReads(o.r, o.packet.(body := None), chunks[1..]);
    }
  }

  lemma {:induction false} JoinBoth(a: seq<seq<byte>>, b: seq<seq<byte>>)
    ensures Join(a + b) == Join(a) + Join(b)
    decreases |a|
  {
    if a == [] {
      assert a + b == b;
    } else {
      assert (a + b)[1..] == a[1..] + b;
      JoinBoth(a[1..], b);
    }
  }
}
