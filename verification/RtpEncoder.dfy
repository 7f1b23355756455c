/**
  `rtp_enc_h264` and `rtp_enc_h265` (rtsp_lib/rtp_enc.c) as they run: the loop that fills packet buffers,
  the array of their sizes and the sequence counter.
 */
module RtpEncoder {
  import opened Common
  import opened RtpFragments

  const U16 := 0x1_0000
  const U64 := 0x1_0000_0000_0000_0000

  /** The header of a packet: version 2, no padding, no extension, no sources. */
  function Header(marker: bool, pt: nat, sequence: nat, ts: nat, ssrc: nat): (b: seq<byte>)
    ensures |b| == HEADER_SIZE
  {
    [128, (if marker then 128 else 0) + pt % 128] + Big16(sequence) + Big32(ts) + Big32(ssrc)
  }

  /** The time stamp in the clock of the payload, in 64 and then in 32 bits. */
  function RtpTime(ts: nat, rate: nat): nat {
    ts * rate % U64 / 1000000 % U32
  }

  /** The frame without the start codes that the code takes away; it looks at four bytes in any case. */
  function AfterStartCode(m: Memory, at: nat, len: int): (nat, int) {
    var (p, n) := if m(at) == 0 && m(at + 1) == 0 && m(at + 2) == 1 then (at + 3, len - 3) else (at, len);
    if m(p) == 0 && m(p + 1) == 0 && m(p + 2) == 0 && m(p + 3) == 1 then (p + 4, n - 4) else (p, n)
  }

  /** The bytes that are left; the length can be below 0. */
  function Left(m: Memory, at: nat, len: int): (s: seq<byte>)
    ensures |s| == if len > 0 then len else 0
  {
    if len > 0 then Slice(m, at, len) else []
  }

  function Unit(m: Memory, at: nat, len: int): seq<byte> {
    var (p, n) := AfterStartCode(m, at, len);
    Left(m, p, n)
  }

  /**
    A NAL unit behind a start code is found just when the code is of four bytes, or no other of four
    bytes follows it: after one of three the code looks for one of four as well.
   */
  lemma StartCodeGoes(m: Memory, at: nat, len: int, nal: seq<byte>, long: bool)
    requires nal != []
    requires var code: seq<byte> := if long then [0, 0, 0, 1] else [0, 0, 1];
             len == |code| + |nal| && Slice(m, at, len) == code + nal
    ensures Unit(m, at, len) == nal
            <==> long || !(m(at + 3) == 0 && m(at + 4) == 0 && m(at + 5) == 0 && m(at + 6) == 1)
  {
    var code: seq<byte> := if long then [0, 0, 0, 1] else [0, 0, 1];
    var s, n := Slice(m, at, len), |code|;
    assert forall k :: 0 <= k < |nal| ==> (code + nal)[n + k] == nal[k];
    assert forall k :: 0 <= k < n ==> s[k] == code[k];
    assert s[0] == m(at + 0) && s[1] == m(at + 1) && s[2] == m(at + 2);
    assert long ==> s[3] == m(at + 3) == 1;
    Parts(m, at, len, n, |nal|);
    assert s[n..n + |nal|] == nal;
  }

  predicate Distinct(packets: seq<array<byte>>) {
    forall i, j :: 0 <= i < j < |packets| ==> packets[i] != packets[j]
  }

  /** A header and what follows it. */
  method Fill(a: array<byte>, header: seq<byte>, prefix: seq<byte>, data: seq<byte>)
    requires |header| + |prefix| + |data| <= a.Length
    modifies a
    ensures a[..|header| + |prefix| + |data|] == header + (prefix + data)
  {
    Copy(a, 0, header);
    ghost var was := a[..|header|];
    Copy(a, |header|, prefix);
    assert a[..|header|] == was == header;
    ghost var two := a[..|header| + |prefix|];
    assert two == a[..|header|] + a[|header|..|header| + |prefix|];
    Copy(a, |header| + |prefix|, data);
    assert a[..|header| + |prefix|] == two;
    assert a[..|header| + |prefix| + |data|] == two + a[|header| + |prefix|..|header| + |prefix| + |data|];
    assert header + prefix + data == header + (prefix + data);
  }

  /** What goes into the next packet: the bytes dropped before it and used by it, its marker and its prefix. */
  datatype Piece = Piece(skip: nat, used: nat, marker: bool, prefix: seq<byte>)

  function NextPiece(kind: Kind, h0: byte, h1: byte, first: bool, left: nat, size: int): Piece
    requires left > 0 && (size >= HEADER_SIZE + Extra(kind) || (first && left <= size - HEADER_SIZE))
  {
    var k := size - HEADER_SIZE - Extra(kind);
    if first && left <= size - HEADER_SIZE then Piece(0, left, true, [])
    else if first then Piece(NalHeader(kind), k, false, Prefix(kind, h0, h1, First))
    else if left <= k then Piece(0, left, true, Prefix(kind, h0, h1, Last))
    else Piece(0, k, false, Prefix(kind, h0, h1, Middle))
  }

  predicate Open(kind: Kind, first: bool, len: int, sizes: seq<int>) {
    if first then Suitable(kind, len, sizes) else Large(kind, len, sizes)
  }

  /** The packets still to come: all of a unit, or what follows its first fragment. */
  function ToCome(kind: Kind, h0: byte, h1: byte, first: bool, data: seq<byte>, sizes: seq<int>): seq<Packet>
    requires Open(kind, first, |data|, sizes)
  {
    if first then Packets(kind, data, sizes) else Rest(kind, h0, h1, data, sizes)
  }

  lemma PieceIsNext(kind: Kind, h0: byte, h1: byte, first: bool, data: seq<byte>, sizes: seq<int>)
    requires Open(kind, first, |data|, sizes) && sizes != [] && data != []
    requires sizes[0] > HEADER_SIZE
    requires first ==> h0 == data[0] && (|data| > 1 ==> h1 == data[1])
    ensures var x := NextPiece(kind, h0, h1, first, |data|, sizes[0]);
            && x.skip + x.used <= |data| && Open(kind, false, |data| - x.skip - x.used, sizes[1..])
            && HEADER_SIZE + |x.prefix| + x.used <= sizes[0]
            && ToCome(kind, h0, h1, first, data, sizes)
               == [Packet(x.marker, x.prefix + data[x.skip..x.skip + x.used])]
                  + ToCome(kind, h0, h1, false, data[x.skip + x.used..], sizes[1..])
  {
    hide Prefix;
    if first {
      FirstPiece(kind, h0, h1, data, sizes);
    } else {
      LaterPiece(kind, h0, h1, data, sizes);
    }
    hide Packets;
    hide Rest;
  }

  lemma LastPiece(kind: Kind, h0: byte, h1: byte, data: seq<byte>, sizes: seq<int>)
    requires Large(kind, |data|, sizes) && sizes != [] && data != []
    requires |data| <= sizes[0] - HEADER_SIZE - Extra(kind)
    ensures Large(kind, 0, sizes[1..])
    ensures Rest(kind, h0, h1, data, sizes)
         == [Packet(true, Prefix(kind, h0, h1, Last) + data[0..|data|])]
            + Rest(kind, h0, h1, data[|data|..], sizes[1..])
  {
    RestUnfolds(kind, h0, h1, data, sizes);
    RestOfNothing(kind, h0, h1, sizes[1..]);
    hide *;
    assert data[0..|data|] == data && data[|data|..] == [];
  }

  lemma MiddlePiece(kind: Kind, h0: byte, h1: byte, data: seq<byte>, sizes: seq<int>)
    requires Large(kind, |data|, sizes) && sizes != [] && data != []
    requires |data| > sizes[0] - HEADER_SIZE - Extra(kind)
    ensures var k := sizes[0] - HEADER_SIZE - Extra(kind);
            && k >= 0 && Large(kind, |data| - k, sizes[1..])
            && Rest(kind, h0, h1, data, sizes)
               == [Packet(false, Prefix(kind, h0, h1, Middle) + data[0..k])] + Rest(kind, h0, h1, data[k..], sizes[1..])
  {
    RoomNext(kind, |data|, sizes);
    RestUnfolds(kind, h0, h1, data, sizes);
    hide *;
    var k := sizes[0] - HEADER_SIZE - Extra(kind);
    assert data[0..k] == data[..k];
  }

  lemma LaterPiece(kind: Kind, h0: byte, h1: byte, data: seq<byte>, sizes: seq<int>)
    requires Large(kind, |data|, sizes) && sizes != [] && data != []
    ensures var x := NextPiece(kind, h0, h1, false, |data|, sizes[0]);
            && Large(kind, |data| - x.used, sizes[1..])
            && x.skip == 0 && x.used <= |data| && HEADER_SIZE + |x.prefix| + x.used <= sizes[0]
            && Rest(kind, h0, h1, data, sizes)
               == [Packet(x.marker, x.prefix + data[0..x.used])] + Rest(kind, h0, h1, data[x.used..], sizes[1..])
  {
    RoomNext(kind, |data|, sizes);
    PieceIs(kind, h0, h1, |data|, sizes[0]);
    if |data| <= sizes[0] - HEADER_SIZE - Extra(kind) {
      LastPiece(kind, h0, h1, data, sizes);
    } else {
      MiddlePiece(kind, h0, h1, data, sizes);
    }
    hide *;
  }

  lemma PieceIs(kind: Kind, h0: byte, h1: byte, left: nat, size: int)
    requires left > 0 && size >= HEADER_SIZE + Extra(kind)
    ensures var k := size - HEADER_SIZE - Extra(kind);
            NextPiece(kind, h0, h1, false, left, size)
            == if left <= k then Piece(0, left, true, Prefix(kind, h0, h1, Last))
               else Piece(0, k, false, Prefix(kind, h0, h1, Middle))
  {
    hide Prefix;
  }

  lemma RestOfNothing(kind: Kind, h0: byte, h1: byte, sizes: seq<int>)
    ensures Large(kind, 0, sizes) && Rest(kind, h0, h1, [], sizes) == []
  {
  }

  lemma FirstPiece(kind: Kind, h0: byte, h1: byte, data: seq<byte>, sizes: seq<int>)
    requires Suitable(kind, |data|, sizes) && sizes != [] && data != []
    requires sizes[0] > HEADER_SIZE
    requires h0 == data[0] && (|data| > 1 ==> h1 == data[1])
    ensures var x := NextPiece(kind, h0, h1, true, |data|, sizes[0]);
            && x.skip + x.used <= |data| && Large(kind, |data| - x.skip - x.used, sizes[1..])
            && HEADER_SIZE + |x.prefix| + x.used <= sizes[0]
            && Packets(kind, data, sizes)
               == [Packet(x.marker, x.prefix + data[x.skip..x.skip + x.used])]
                  + Rest(kind, h0, h1, data[x.skip + x.used..], sizes[1..])
  {
    hide Prefix;
    hide Rest;
    if |data| <= sizes[0] - HEADER_SIZE {
      RestOfNothing(kind, h0, h1, sizes[1..]);
      assert [] + data == data == data[0..|data|] && data[|data|..] == [];
    } else {
      hide Packets;
      PacketsStart(kind, data, sizes);
    }
  }

  /** Part of a slice, and what is behind it. */
  lemma Parts(m: Memory, at: nat, n: nat, skip: nat, used: nat)
    requires skip + used <= n
    ensures Slice(m, at, n)[skip..skip + used] == Slice(m, at + skip, used)
    ensures Slice(m, at, n)[skip + used..] == Slice(m, at + skip + used, n - skip - used)
  {
    hide Slice;
    var data := Slice(m, at, n);
    var x, y := data[skip..skip + used], data[skip + used..];
    forall i | 0 <= i < used
      ensures x[i] == Slice(m, at + skip, used)[i]
    {
      assert data[skip + i] == m(at + (skip + i));
    }
    forall i | 0 <= i < n - skip - used
      ensures y[i] == Slice(m, at + skip + used, n - skip - used)[i]
    {
      assert data[skip + used + i] == m(at + (skip + used + i));
    }
  }

  lemma SliceStarts(m: Memory, at: nat, n: nat)
    ensures n > 0 ==> Slice(m, at, n)[0] == m(at)
    ensures n > 1 ==> Slice(m, at, n)[1] == m(at + 1)
  {
    assert n > 0 ==> Slice(m, at, n)[0] == m(at + 0);
  }

  lemma NothingToCome(kind: Kind, h0: byte, h1: byte, first: bool, data: seq<byte>, sizes: seq<int>)
    requires Open(kind, first, |data|, sizes) && (data == [] || sizes == [])
    ensures ToCome(kind, h0, h1, first, data, sizes) == []
  {
  }

  /** The buffers the loop comes to: it ends at the first without room behind the packet header. */
  function Usable(sizes: seq<int>): (u: seq<int>)
    ensures |u| <= |sizes| && u == sizes[..|u|]
    ensures |u| < |sizes| ==> sizes[|u|] <= HEADER_SIZE
    ensures forall k :: 0 <= k < |u| ==> u[k] > HEADER_SIZE
    decreases |sizes|
  {
    if sizes == [] || sizes[0] <= HEADER_SIZE then [] else [sizes[0]] + Usable(sizes[1..])
  }

  class Encoder {
    var pt: nat
    var sequence: nat
    var ssrc: nat
    var rate: nat

    /** Packet `k` is in its buffer, and its size in the array. */
    predicate Written(packets: seq<array<byte>>, sizes: array<int>, k: nat, p: Packet, first: nat, ts: nat)
      requires k < |packets| && k < sizes.Length
      reads this, packets[k], sizes
    {
      && sizes[k] == HEADER_SIZE + |p.payload| <= packets[k].Length
      && packets[k][..sizes[k]] == Header(p.marker, pt, (first + k) % U16, ts, ssrc) + p.payload
    }

    /** One packet; those before it, and the sizes behind it, stay as they are. */
    method PutPacket(packets: seq<array<byte>>, sizes: array<int>, n: nat, x: Piece, data: seq<byte>, time: nat,
                     ghost done: seq<Packet>, ghost first: nat)
      requires Distinct(packets) && sizes.Length == |packets| && n < |packets| && n == |done|
      requires |data| == x.used && HEADER_SIZE + |x.prefix| + x.used <= packets[n].Length
      requires forall k :: 0 <= k < n ==> Written(packets, sizes, k, done[k], first, time)
      requires sequence % U16 == (first + n) % U16
      modifies this`sequence, sizes, packets[n]
      ensures forall k :: 0 <= k < n ==> Written(packets, sizes, k, done[k], first, time)
      ensures Written(packets, sizes, n, Packet(x.marker, x.prefix + data), first, time)
      ensures forall k :: n < k < |packets| ==> sizes[k] == old(sizes[k])
      ensures sequence % U16 == (first + n + 1) % U16
    {
      hide Header;
      var number := sequence % U16;
      sequence := (sequence + 1) % U16;
      Fill(packets[n], Header(x.marker, pt, number, time, ssrc), x.prefix, data);
      sizes[n] := HEADER_SIZE + |x.prefix| + x.used;
      assert packets[n][..sizes[n]] == Header(x.marker, pt, number, time, ssrc) + (x.prefix + data);
    }

    /** The loop over the packet buffers. */
    method FillPackets(kind: Kind, m: Memory, at: nat, len: int, time: nat, packets: seq<array<byte>>,
                       sizes: array<int>)
      returns (count: nat)
      requires Distinct(packets) && sizes.Length == |packets| && Suitable(kind, |Left(m, at, len)|, Usable(sizes[..]))
      requires forall k :: 0 <= k < |packets| ==> sizes[k] <= packets[k].Length
      modifies this`sequence, sizes, set k | 0 <= k < |packets| :: packets[k]
      ensures var ps := Packets(kind, Left(m, at, len), Usable(old(sizes[..])));
              && count == |ps| <= |packets|
              && (forall k :: 0 <= k < |ps| ==> Written(packets, sizes, k, ps[k], old(sequence), time))
              && (forall k :: |ps| <= k < |packets| ==> sizes[k] == old(sizes[k]))
              && sequence % U16 == (old(sequence) + |ps|) % U16
    {
      hide Written;
      hide NextPiece;
      hide Going;
      hide Left;
      hide Usable;
      var p: nat, left: int, h0, h1 := at, len, m(at), m(at + 1);
      ghost var given := Usable(sizes[..]);
      ghost var ps, done: seq<Packet> := Packets(kind, Left(m, at, len), given), [];
      GoingStart(kind, h0, h1, m, at, len, given);
      hide Packets;
      hide Suitable;
      count := 0;
      while left > 0 && count < |packets| && sizes[count] > HEADER_SIZE
        invariant count <= |given| && count == |done| && (count == 0 ==> h0 == m(p) && h1 == m(p + 1))
        invariant Going(ps, done, kind, h0, h1, count == 0, m, p, left, given[count..])
        invariant forall k :: 0 <= k < count ==> Written(packets, sizes, k, done[k], old(sequence), time)
        invariant forall k :: count <= k < |packets| ==> sizes[k] == old(sizes[k])
        invariant sequence % U16 == (old(sequence) + count) % U16
        decreases |packets| - count
      {
        assert given[count..][0] == given[count] && given[count..][1..] == given[count + 1..];
        GoingNext(ps, done, kind, h0, h1, count == 0, m, p, left, given[count..]);
        var x := NextPiece(kind, h0, h1, count == 0, left, sizes[count]);
        var part := Slice(m, p + x.skip, x.used);
        PutPacket(packets, sizes, count, x, part, time, done, old(sequence));
        p := p + x.skip + x.used;
        left := left - x.skip - x.used;
        done := done + [Packet(x.marker, x.prefix + part)];
        count := count + 1;
      }
      GoingEnds(ps, done, kind, h0, h1, count == 0, m, p, left, given[count..]);
    }

    /**
      The packets of a frame: they are those of the NAL unit in it, in order, with consecutive sequence
      numbers modulo 2^16 and one time stamp; the buffers after them keep their sizes.
     */
    method Encode(kind: Kind, m: Memory, at: nat, len: int, ts: nat, packets: seq<array<byte>>, sizes: array<int>)
      returns (count: int)
      requires Distinct(packets) && sizes.Length == |packets| && Suitable(kind, |Unit(m, at, len)|, Usable(sizes[..]))
      requires forall k :: 0 <= k < |packets| ==> sizes[k] <= packets[k].Length
      modifies this`sequence, sizes, set k | 0 <= k < |packets| :: packets[k]
      ensures len <= 0 ==> count == -1 && sequence == old(sequence) && sizes[..] == old(sizes[..])
      ensures len > 0 ==>
                var ps := Packets(kind, Unit(m, at, len), Usable(old(sizes[..])));
                && count == |ps| <= |packets|
                && (forall k :: 0 <= k < |ps| ==> Written(packets, sizes, k, ps[k], old(sequence), RtpTime(ts, rate)))
                && (forall k :: |ps| <= k < |packets| ==> sizes[k] == old(sizes[k]))
                && sequence % U16 == (old(sequence) + |ps|) % U16
    {
      hide Written;
      hide Packets;
      if len <= 0 {
        return -1;
      }
      var p: nat, left: int := at, len;
      if m(p) == 0 && m(p + 1) == 0 && m(p + 2) == 1 {
        p, left := p + 3, left - 3;
      }
      if m(p) == 0 && m(p + 1) == 0 && m(p + 2) == 0 && m(p + 3) == 1 {
        p, left := p + 4, left - 4;
      }
      count := FillPackets(kind, m, p, left, RtpTime(ts, rate), packets, sizes);
    }
  }

  /** One turn of the loop. */
  lemma StepIsNext(kind: Kind, m: Memory, h0: byte, h1: byte, first: bool, p: nat, left: nat, sizes: seq<int>)
    requires Open(kind, first, left, sizes) && sizes != [] && sizes[0] > HEADER_SIZE && left > 0
    requires first ==> h0 == m(p) && h1 == m(p + 1)
    ensures sizes[0] >= HEADER_SIZE + Extra(kind) || (first && left <= sizes[0] - HEADER_SIZE)
    ensures var x := NextPiece(kind, h0, h1, first, left, sizes[0]);
            && x.skip + x.used <= left && HEADER_SIZE + |x.prefix| + x.used <= sizes[0]
            && Open(kind, false, left - x.skip - x.used, sizes[1..])
            && ToCome(kind, h0, h1, first, Left(m, p, left), sizes)
               == [Packet(x.marker, x.prefix + Slice(m, p + x.skip, x.used))]
                  + ToCome(kind, h0, h1, false, Left(m, p + x.skip + x.used, left - x.skip - x.used), sizes[1..])
  {
    hide ToCome;
    hide NextPiece;
    hide Slice;
    SliceStarts(m, p, left);
    PieceIsNext(kind, h0, h1, first, Slice(m, p, left), sizes);
    var x := NextPiece(kind, h0, h1, first, left, sizes[0]);
    Parts(m, p, left, x.skip, x.used);
    SliceNone(m, p + x.skip + x.used);
  }

  /** In the loop: what is done and what is to come make all the packets. */
  ghost predicate Going(ps: seq<Packet>, done: seq<Packet>, kind: Kind, h0: byte, h1: byte, first: bool,
                        m: Memory, p: nat, left: int, sizes: seq<int>) {
    && Open(kind, first, |Left(m, p, left)|, sizes)
    && ps == done + ToCome(kind, h0, h1, first, Left(m, p, left), sizes)
  }

  lemma GoingStart(kind: Kind, h0: byte, h1: byte, m: Memory, p: nat, left: int, sizes: seq<int>)
    requires Suitable(kind, |Left(m, p, left)|, sizes)
    ensures sizes[0..] == sizes
    ensures Going(Packets(kind, Left(m, p, left), sizes), [], kind, h0, h1, true, m, p, left, sizes)
  {
    hide Packets;
    hide Left;
  }

  lemma GoingNext(ps: seq<Packet>, done: seq<Packet>, kind: Kind, h0: byte, h1: byte, first: bool,
                  m: Memory, p: nat, left: nat, sizes: seq<int>)
    requires Going(ps, done, kind, h0, h1, first, m, p, left, sizes)
    requires sizes != [] && sizes[0] > HEADER_SIZE && left > 0 && (first ==> h0 == m(p) && h1 == m(p + 1))
    ensures sizes[0] >= HEADER_SIZE + Extra(kind) || (first && left <= sizes[0] - HEADER_SIZE)
    ensures var x := NextPiece(kind, h0, h1, first, left, sizes[0]);
            && x.skip + x.used <= left && HEADER_SIZE + |x.prefix| + x.used <= sizes[0]
            && Going(ps, done + [Packet(x.marker, x.prefix + Slice(m, p + x.skip, x.used))], kind, h0, h1, false,
                     m, p + x.skip + x.used, left - x.skip - x.used, sizes[1..])
  {
    hide ToCome;
    hide NextPiece;
    hide Slice;
    hide Large;
    hide Suitable;
    StepIsNext(kind, m, h0, h1, first, p, left, sizes);
  }

  lemma GoingEnds(ps: seq<Packet>, done: seq<Packet>, kind: Kind, h0: byte, h1: byte, first: bool,
                  m: Memory, p: nat, left: int, sizes: seq<int>)
    requires Going(ps, done, kind, h0, h1, first, m, p, left, sizes) && (left <= 0 || sizes == [])
    ensures ps == done
  {
    NothingToCome(kind, h0, h1, first, Left(m, p, left), sizes);
    hide ToCome;
    hide Left;
  }

  lemma SliceNone(m: Memory, at: nat)
    ensures Slice(m, at, 0) == []
  {
  }
}
