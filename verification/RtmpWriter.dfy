/**
  `RTMP_SendPacket` (rtmp_lib/rtmp.c) as it runs: every header is built in the packet's own buffer, the
  first one in the reserve in front of the body, the others over body bytes that have been sent already.
 */
module RtmpWriter {
  import opened Common
  import opened RtmpChunks

  const RESERVE := 18

  lemma {:induction false} JoinCut(header: seq<byte>, next: seq<byte>, body: seq<byte>, size: nat)
    requires size >= 1
    ensures var k := Min(size, |body|);
            Join(Cut(header, next, body, size))
            == header + body[..k] + (if k < |body| then Join(Cut(next, next, body[k..], size)) else [])
  {
  }

  /** `s` stored at index `at`. */
  function Overlay(o: seq<byte>, at: nat, s: seq<byte>): (r: seq<byte>)
    requires at + |s| <= |o|
    ensures |r| == |o|
  {
    o[..at] + s + o[at + |s|..]
  }

  lemma OverlayNothing(o: seq<byte>, at: nat)
    requires at <= |o|
    ensures Overlay(o, at, []) == o
  {
  }

  lemma OverlayTwice(o: seq<byte>, at: nat, a: seq<byte>, b: seq<byte>)
    requires at + |a| + |b| <= |o|
    ensures Overlay(Overlay(o, at, a), at + |a|, b) == Overlay(o, at, a + b)
  {
    var m := Overlay(o, at, a);
    assert m[..at + |a|] == o[..at] + a;
    assert m[at + |a| + |b|..] == o[at + |a| + |b|..];
  }

  /** Stores bytes one after the other; `EncodeInt24`, `EncodeInt32` and plain stores of the C code. */
  method Put(buf: array<byte>, at: nat, s: seq<byte>) returns (next: nat)
    requires at + |s| <= buf.Length
    modifies buf
    ensures next == at + |s| && buf[..] == Overlay(old(buf[..]), at, s)
  {
    ghost var o := buf[..];
    var i := 0;
    while i < |s|
      invariant 0 <= i <= |s|
      invariant forall j :: 0 <= j < buf.Length ==> buf[j] == if at <= j < at + i then s[j - at] else o[j]
    {
      buf[at + i] := s[i];
      i := i + 1;
    }
    next := at + |s|;
  }

  class Writer {
    var chunkSize: nat
    var prev: map<nat, Packet>
    var wire: seq<byte>
    ghost var fields: map<nat, u32>

    /** The first header, from index `start`. */
    method BuildFirst(buf: array<byte>, start: nat, h: HeaderType, t: u32, p: Packet)
      requires Sendable(p) && h == Shrunk(prev, p) && t == Delta(prev, p)
      requires start + |FirstHeader(prev, p)| <= buf.Length
      modifies buf
      ensures buf[..] == Overlay(old(buf[..]), start, FirstHeader(prev, p))
    {
      ghost var o := buf[..];
      hide Shrunk;
      hide Delta;
      hide Overlay;
      ghost var b, m, e := Basic(h, p.channel), MessageHeader(h, t, p), Extension(t);
      var at := Put(buf, start, Basic(h, p.channel));
      at := PutMessageHeader(buf, at, h, t, p);
      OverlayTwice(o, start, b, m);
      if t >= EXTENDED {
        at := Put(buf, at, Big32(t));
        OverlayTwice(o, start, b + m, e);
      } else {
        assert b + m + e == b + m;
      }
    }

    method PutMessageHeader(buf: array<byte>, start: nat, h: HeaderType, t: u32, p: Packet) returns (at: nat)
      requires Sendable(p) && start + MessageHeaderSize(h) <= buf.Length
      modifies buf
      ensures at == start + MessageHeaderSize(h) && buf[..] == Overlay(old(buf[..]), start, MessageHeader(h, t, p))
    {
      ghost var o := buf[..];
      hide Overlay;
      at := start;
      if h != MINIMUM {
        at := Put(buf, at, Big24(Field(t)));
      }
      if h == LARGE || h == MEDIUM {
        at := Put(buf, at, Big24(|p.body|));
        OverlayTwice(o, start, Big24(Field(t)), Big24(|p.body|));
        at := Put(buf, at, [p.packetType]);
        OverlayTwice(o, start, Big24(Field(t)) + Big24(|p.body|), [p.packetType]);
      }
      if h == LARGE {
        at := Put(buf, at, Little32(p.infoField2));
        OverlayTwice(o, start, Big24(Field(t)) + Big24(|p.body|) + [p.packetType], Little32(p.infoField2));
      }
      if h == MINIMUM {
        OverlayNothing(o, start);
      }
    }

    /** The header of a further chunk, ending right before the bytes still to be sent. */
    method BuildNext(buf: array<byte>, start: nat, t: u32, p: Packet)
      requires Sendable(p) && t == Delta(prev, p) && start + |NextHeader(prev, p)| <= buf.Length
      modifies buf
      ensures buf[..] == Overlay(old(buf[..]), start, NextHeader(prev, p))
    {
      hide Overlay;
      hide Delta;
      ghost var o := buf[..];
      var at := Put(buf, start, Basic(MINIMUM, p.channel));
      if t >= EXTENDED {
        at := Put(buf, at, Big32(t));
        OverlayTwice(o, start, Basic(MINIMUM, p.channel), Big32(t));
      } else {
        assert NextHeader(prev, p) == Basic(MINIMUM, p.channel);
      }
    }

    /** The next header is built over bytes already sent; the `n` bytes still to be sent stay as they are. */
    method NextInPlace(buf: array<byte>, pos: nat, n: nat, t: u32, p: Packet) returns (header: nat, hSize: nat)
      requires Sendable(p) && t == Delta(prev, p) && RESERVE <= pos && pos + n <= buf.Length
      modifies buf
      ensures hSize == |NextHeader(prev, p)| && header + hSize == pos
      ensures buf[header..pos + n] == NextHeader(prev, p) + old(buf[pos..pos + n])
    {
      ghost var o := buf[..];
      hSize := |NextHeader(prev, p)|;
      header := pos - hSize;
      BuildNext(buf, header, t, p);
      OverlayPart(o, header, NextHeader(prev, p), pos, n);
      assert o[pos..pos + n] == old(buf[pos..pos + n]);
    }

    /** The buffer holds a header right in front of the `n` bytes to be sent. */
    ghost predicate Lined(buf: array<byte>, header: nat, hSize: nat, n: nat, head: seq<byte>, rest: seq<byte>)
      reads buf
    {
      && header + hSize + n <= buf.Length && |head| == hSize && |rest| == n
      && buf[header..header + hSize + n] == head + rest
    }

    /** One pass of the chunk loop: header and data go out, the next header is built if data remain. */
    method SendOne(buf: array<byte>, header: nat, hSize: nat, nSize: nat, nChunk: nat, t: u32, p: Packet,
                   ghost head: seq<byte>, ghost rest: seq<byte>)
      returns (header': nat, hSize': nat)
      requires Sendable(p) && t == Delta(prev, p) && Lined(buf, header, hSize, nSize, head, rest) && hSize > 0
      requires nChunk <= nSize && (nSize > 0 ==> nChunk > 0 && header + hSize >= RESERVE)
      modifies `wire, buf
      ensures wire == old(wire) + (head + rest[..nChunk])
      ensures nChunk == nSize ==> hSize' == 0
      ensures nChunk < nSize ==> hSize' > 0 && header' + hSize' == header + hSize + nChunk
                                 && Lined(buf, header', hSize', nSize - nChunk, NextHeader(prev, p), rest[nChunk..])
    {
      hide NextHeader;
      hide Sendable;
      hide Delta;
      ghost var b := buf[..];
      var pos := header + hSize;
      Slices(b, header, pos, nSize, nChunk, head, rest);
      assert buf[header..pos + nChunk] == b[header..pos + nChunk];
      assert buf[pos + nChunk..pos + nSize] == b[pos + nChunk..pos + nSize];
      wire := wire + buf[header..pos + nChunk];
      header', hSize' := pos + nChunk, 0;
      if nChunk < nSize {
        header', hSize' := NextInPlace(buf, pos + nChunk, nSize - nChunk, t, p);
      }
    }

    /** The chunk loop; `header` and `hSize` delimit the header that precedes the next body bytes. */
    method SendChunks(buf: array<byte>, start: nat, headerSize: nat, t: u32, p: Packet, ghost first: seq<byte>)
      requires Sendable(p) && t == Delta(prev, p) && chunkSize >= 1 && headerSize > 0
      requires Lined(buf, start, headerSize, |p.body|, first, p.body)
      requires p.body != [] ==> start + headerSize == RESERVE
      modifies `wire, buf
      ensures wire == old(wire) + Join(Cut(first, NextHeader(prev, p), p.body, chunkSize))
    {
      hide Cut;
      hide Join;
      hide NextHeader;
      hide Delta;
      hide Lined;
      var header, hSize, nSize, nChunk: nat := start, headerSize, |p.body|, chunkSize;
      ghost var next := NextHeader(prev, p);
      ghost var head, rest := first, p.body;
      ghost var goal := wire + Join(Cut(first, next, p.body, chunkSize));
      while nSize + hSize > 0
        invariant 0 <= nSize && 0 <= hSize && 0 <= header
        invariant hSize > 0 ==> Lined(buf, header, hSize, nSize, head, rest) && |rest| == nSize
        invariant hSize == 0 ==> nSize == 0
        invariant nSize > 0 ==> nChunk == chunkSize && header + hSize >= RESERVE
        invariant nChunk <= chunkSize
        invariant goal == if hSize == 0 then wire else wire + Join(Cut(head, next, rest, chunkSize))
        decreases nSize, hSize
      {
        JoinCut(head, next, rest, chunkSize);
        if nSize < nChunk {
          nChunk := nSize;
        }
        Grouping(wire, head, rest[..nChunk],
                 if nChunk < nSize then Join(Cut(next, next, rest[nChunk..], chunkSize)) else []);
        header, hSize := SendOne(buf, header, hSize, nSize, nChunk, t, p, head, rest);
        nSize := nSize - nChunk;
        head, rest := next, rest[nChunk..];
      }
    }

    /** Compression against the last packet of the channel. */
    method Compress(p: Packet) returns (h: HeaderType, t: u32)
      ensures h == Shrunk(prev, p) && t == Delta(prev, p)
    {
      h := p.headerType;
      var last: u32 := 0;
      if p.channel in prev && p.headerType != LARGE {
        var q := prev[p.channel];
        if |q.body| == |p.body| && q.packetType == p.packetType && h == MEDIUM {
          h := SMALL;
        }
        if q.timestamp == p.timestamp && h == SMALL {
          h := MINIMUM;
        }
        last := q.timestamp;
      }
      t := (p.timestamp - last) % 0x1_0000_0000;
    }

    /** Places the first header and runs the chunk loop; a packet without a body uses a local buffer. */
    method Emit(p: Packet, h: HeaderType, t: u32, body: array?<byte>)
      requires Sendable(p) && h == Shrunk(prev, p) && t == Delta(prev, p) && chunkSize >= 1
      requires if body == null then p.body == [] else body.Length >= RESERVE && p.body == body[RESERVE..]
      modifies `wire, body
      ensures wire == old(wire) + Join(Chunks(prev, p, chunkSize))
    {
      hide Shrunk;
      hide Delta;
      hide FirstHeader;
      hide NextHeader;
      hide Cut;
      hide Join;
      hide Overlay;
      var cSize := if p.channel > 319 then 2 else if p.channel > 63 then 1 else 0;
      var hSize := 1 + MessageHeaderSize(h) + cSize + (if t >= EXTENDED then 4 else 0);
      HeaderSize(prev, p);
      var buf, header;
      if body != null {
        buf, header := body, RESERVE - hSize;
      } else {
        buf := new byte[RESERVE];
        header := 6 - cSize - (if t >= EXTENDED then 4 else 0);
      }
      ghost var o := buf[..];
      assert body != null ==> o[RESERVE..] == p.body;
      BuildFirst(buf, header, h, t, p);
      OverlayPart(o, header, FirstHeader(prev, p), header + hSize, |p.body|);
      assert o[header + hSize..header + hSize + |p.body|] == p.body;
      SendChunks(buf, header, hSize, t, p, FirstHeader(prev, p));
    }

    /**
      `RTMP_SendPacket`.  `body` is the packet's buffer with the reserve in front (null for a packet
      without a body); the header type that was used is returned.
     */
    method SendPacket(headerType: HeaderType, packetType: byte, channel: nat, timestamp: u32, infoField2: u32,
                      body: array?<byte>) returns (h: HeaderType)
      requires 2 <= channel <= 65599 && chunkSize >= 1
      requires body != null ==> RESERVE <= body.Length < RESERVE + 0x100_0000
      modifies this, body
      ensures chunkSize == old(chunkSize)
      ensures var p := Packet(headerType, packetType, channel, timestamp, infoField2,
                              if body == null then [] else old(body[RESERVE..]));
              var s := Sent(Sender(old(prev), old(fields)), p);
              && wire == old(wire) + Join(Chunks(old(prev), p, chunkSize))
              && prev == s.prev && fields == s.fields && h == Shrunk(old(prev), p)
    {
      var p := Packet(headerType, packetType, channel, timestamp, infoField2,
                      if body == null then [] else body[RESERVE..]);
      var t;
      h, t := Compress(p);
      Emit(p, h, t, body);
      fields := Sent(Sender(prev, fields), p).fields;
      prev := prev[channel := p.(headerType := h)];
    }
  }

  lemma HeaderSize(prev: map<nat, Packet>, p: Packet)
    requires Sendable(p)
    ensures |FirstHeader(prev, p)| == 1 + MessageHeaderSize(Shrunk(prev, p))
              + (if p.channel > 319 then 2 else if p.channel > 63 then 1 else 0)
              + (if Delta(prev, p) >= EXTENDED then 4 else 0)
    ensures 1 <= |FirstHeader(prev, p)| <= RESERVE
  {
  }

  lemma Grouping(w: seq<byte>, a: seq<byte>, b: seq<byte>, c: seq<byte>)
    ensures w + (a + b + c) == (w + (a + b)) + c
    ensures (w + (a + b)) + [] == w + (a + b)
  {
  }

  lemma Slices(b: seq<byte>, header: nat, pos: nat, n: nat, k: nat, head: seq<byte>, rest: seq<byte>)
    requires header <= pos && pos + n <= |b| && k <= n && |head| == pos - header && |rest| == n
    requires b[header..pos + n] == head + rest
    ensures b[header..pos + k] == head + rest[..k] && b[pos + k..pos + n] == [] + rest[k..] == rest[k..]
  {
    assert b[header..pos + k] == b[header..pos + n][..|head| + k];
    assert b[pos + k..pos + n] == b[header..pos + n][|head| + k..];
  }

  /** Storing a header in front of `pos` leaves what follows as it was. */
  lemma OverlayPart(o: seq<byte>, at: nat, s: seq<byte>, pos: nat, n: nat)
    requires at + |s| == pos && pos + n <= |o|
    ensures Overlay(o, at, s)[at..pos + n] == s + o[pos..pos + n]
  {
  }
}
