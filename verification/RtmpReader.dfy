/** `RTMP_ReadPacket` (rtmp_lib/rtmp.c) as it runs: reads off the input, and tables kept per channel. */
module RtmpReader {
  import opened Common
  import opened RtmpChunks
  import opened RtmpRoundTrip
  import opened RtmpWire

  /** TRUE, FALSE, and a write outside the body buffer. */
  datatype Verdict = Read | Refused | OutOfBounds

  class Receiver {
    var chunkSize: nat
    var saved: map<nat, Incoming>
    var stamps: map<nat, u32>
    var input: seq<byte>

    ghost function State(): Reader
      reads this
    {
      Reader(chunkSize, saved, stamps)
    }

    /** `ReadN`: all of the `n` bytes, or failure. */
    method ReadN(n: nat) returns (ok: bool, s: seq<byte>)
      modifies `input
      ensures ok <==> n <= |old(input)|
      ensures ok ==> s == old(input)[..n] && input == old(input)[n..]
    {
      if n > |input| {
        return false, [];
      }
      ok, s, input := true, input[..n], input[n..];
    }

    method ReadBasicHeader() returns (ok: bool, h: HeaderType, channel: nat)
      modifies `input
      ensures var b := ReadBasic(old(input));
              (ok <==> b.Some?) && (ok ==> b.value == BasicHeader(h, channel, b.value.size)
                                           && b.value.size <= |old(input)| && input == old(input)[b.value.size..])
    {
      h, channel := 0, 0;
      var s;
      ok, s := ReadN(1);
      if !ok { return; }
      h := s[0] as int / 64;
      channel := s[0] as int % 64;
      if channel == 0 {
        ok, s := ReadN(1);
        if !ok { return; }
        channel := s[0] as int + 64;
      } else if channel == 1 {
        ok, s := ReadN(2);
        if !ok { return; }
        channel := s[1] as int * 256 + s[0] as int + 64;
      }
    }

    /** The packet becomes the reference for the next header on its channel. */
    method Keep(p: Incoming, extended: bool)
      modifies `saved
      ensures saved == old(saved)[p.channel := if extended then p.(timestamp := EXTENDED) else p]
    {
      saved := saved[p.channel := p];
      if extended {
        saved := saved[p.channel := saved[p.channel].(timestamp := EXTENDED)];
      }
    }

    /** Keeps the packet; a complete one gets its absolute timestamp, and its kept copy is reset. */
    method Settle(p0: Incoming, extended: bool) returns (p: Incoming)
      modifies `saved, `stamps
      ensures Finish(old(State()), p0, extended, input) == Done(State(), p, input)
    {
      p := p0;
      Keep(p, extended);
      if p.bytesRead == p.bodySize {
        var ts := p.timestamp;
        if !p.hasAbs {
          ts := (p.timestamp + (if p.channel in stamps then stamps[p.channel] else 0)) % 0x1_0000_0000;
        }
        p := p.(timestamp := ts);
        stamps := stamps[p.channel := ts];
        saved := saved[p.channel := saved[p.channel].(body := None, bytesRead := 0, hasAbs := false)];
      } else {
        p := p.(body := None);
      }
    }

    /** From the allocation of the body to the end. */
    method ReadBody(p0: Incoming, h: HeaderType, extended: bool) returns (v: Verdict, p: Incoming)
      modifies this
      ensures chunkSize == old(chunkSize)
      ensures match ReadData(old(State()), p0, h, extended, old(input))
              case Done(r, q, rest) => v == Read && State() == r && p == q && input == rest
              case Failed => v == Refused
              case Overrun => v == OutOfBounds
    {
      hide Finish;
      p := p0;
      if p.bodySize > 0 && p.body.None? {
        p := p.(body := Some(Zeros(p.bodySize)), bytesRead := 0, headerType := h);
      }
      var toRead := p.bodySize - p.bytesRead;
      var n := chunkSize;
      if toRead < n {
        n := toRead;
      }
      if n < 0 || (n > 0 && (p.body.None? || p.bytesRead + n > |p.body.value|)) {
        return OutOfBounds, p;
      }
      var ok, s := ReadN(n);
      if !ok {
        return Refused, p;
      }
      if n > 0 {
        p := p.(body := Some(p.body.value[..p.bytesRead] + s + p.body.value[p.bytesRead + n..]));
      }
      p := p.(bytesRead := p.bytesRead + n);
      p := Settle(p, extended);
      v := Read;
    }

    /** Basic header, inherited fields and message header; `left` is what follows them. */
    method ReadHeader(p0: Incoming) returns (ok: bool, h: HeaderType, p: Incoming)
      modifies `input
      ensures var b := ReadBasic(old(input));
              if b.None? || |old(input)[b.value.size..]| < MessageHeaderSize(b.value.h) then !ok
              else && ok && h == b.value.h
                   && p == WithMessageHeader(Inherited(State(), p0, b.value), old(input)[b.value.size..], h)
                   && input == old(input)[b.value.size..][MessageHeaderSize(h)..]
    {
      p, h := p0, LARGE;
      var channel;
      ok, h, channel := ReadBasicHeader();
      if !ok { return; }
      p := p.(headerType := h, channel := channel);
      if h == LARGE {
        p := p.(hasAbs := true);
      } else if channel in saved {
        p := saved[channel];
      }
      ghost var w := input;
      var s;
      ok, s := ReadN(MessageHeaderSize(h));
      if !ok { return; }
      HeaderPrefix(p, s, w, h);
      p := WithMessageHeader(p, s, h);
    }

    /** `RTMP_ReadPacket`: one chunk. */
    method ReadPacket(p0: Incoming) returns (v: Verdict, p: Incoming)
      modifies this
      ensures chunkSize == old(chunkSize)
      ensures match ReadChunk(old(State()), p0, old(input))
              case Done(r, q, rest) => v == Read && State() == r && p == q && input == rest
              case Failed => v == Refused
              case Overrun => v == OutOfBounds
    {
      hide ReadData;
      hide WithMessageHeader;
      hide Inherited;
      hide ReadBasic;
      v := Refused;
      var ok, h;
      ok, h, p := ReadHeader(p0);
      if !ok { return; }
      ghost var w := old(input)[ReadBasic(old(input)).value.size..];
      ghost var n := MessageHeaderSize(h);
      if p.timestamp == EXTENDED {
        var s;
        ok, s := ReadN(4);
        if !ok { return; }
        p := p.(timestamp := FromBig32(s));
        assert w[n..][..4] == s && w[n..][4..] == w[n + 4..];
        v, p := ReadBody(p, h, true);
      } else {
        v, p := ReadBody(p, h, false);
      }
    }

    /**
      The callers' loop around `RTMP_ReadPacket`: the same packet again and again, and every complete one
      taken, until the input is used up.
     */
    method ReadStream(p0: Incoming) returns (ok: bool, complete: seq<Incoming>, last: Incoming)
      modifies this
      ensures match ReadWire(old(State()), p0, old(input))
              case None => !ok
              case Some(run) => ok && complete == run.complete && State() == run.r && last == run.packet && input == []
    {
      hide ReadChunk;
      hide ReadWire;
      ok, complete, last := true, [], p0;
      ghost var whole := ReadWire(State(), p0, input);
      AfterNothing(whole);
      while input != []
        invariant whole == After(complete, ReadWire(State(), last, input))
        decreases |input|
      {
        WireStep(State(), last, input);
        ChunkShortens(State(), last, input);
        ghost var before := complete;
        var v, p := ReadPacket(last);
        if v != Read {
          return false, complete, p;
        }
        if IsReady(p) {
          complete := complete + [p];
        }
        last := p.(body := None);
        AfterTwice(before, if IsReady(p) then [p] else [], ReadWire(State(), last, input));
        assert before + [] == before;
      }
      WireEnds(State(), last);
      assert complete + [] == complete;
    }
  }

  /** The packets already complete, before what is still read. */
  function After(complete: seq<Incoming>, r: Option<Run>): Option<Run> {
    match r case None => None case Some(run) => Some(run.(complete := complete + run.complete))
  }

  lemma AfterNothing(r: Option<Run>)
    ensures After([], r) == r
  {
    if r.Some? {
      assert [] + r.value.complete == r.value.complete;
    }
  }

  lemma AfterTwice(a: seq<Incoming>, b: seq<Incoming>, r: Option<Run>)
    ensures After(a, After(b, r)) == After(a + b, r)
  {
    if r.Some? {
      assert a + (b + r.value.complete) == a + b + r.value.complete;
    }
  }

  lemma WireStep(r: Reader, p: Incoming, w: seq<byte>)
    requires w != []
    ensures ReadWire(r, p, w) == match ReadChunk(r, p, w)
                                 case Done(r', p', rest) =>
                                   After(if IsReady(p') then [p'] else [], ReadWire(r', p'.(body := None), rest))
                                 case _ => None
  {
    hide ReadChunk;
  }

  lemma WireEnds(r: Reader, p: Incoming)
    ensures ReadWire(r, p, []) == Some(Run(r, p, []))
  {
  }

  lemma HeaderPrefix(p: Incoming, s: seq<byte>, w: seq<byte>, h: HeaderType)
    requires |w| >= MessageHeaderSize(h) && s == w[..MessageHeaderSize(h)]
    ensures WithMessageHeader(p, s, h) == WithMessageHeader(p, w, h)
  {
  }
}
