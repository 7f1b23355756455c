/**
  RTP payloads for H.264 and H.265 (rtsp_lib/rtp_enc.c): a NAL unit goes into one packet or into
  fragmentation units, by section 5.8 of RFC 6184 and section 4.4.3 of RFC 7798.
 */
module RtpFragments {
  import opened Common

  const HEADER_SIZE := 12

  datatype Kind = H264 | H265

  /** The payload of a packet, and its marker bit. */
  datatype Packet = Packet(marker: bool, payload: seq<byte>)

  /** Which fragment of a unit. */
  datatype Part = First | Middle | Last

  /** The bytes of a NAL unit's own header, which fragments do not repeat. */
  function NalHeader(kind: Kind): nat {
    if kind.H264? then 1 else 2
  }

  /** The bytes in front of the data of a fragment. */
  function Extra(kind: Kind): nat {
    if kind.H264? then 2 else 3
  }

  function Flag(part: Part): nat {
    match part case First => 128 case Middle => 0 case Last => 64
  }

  /** The indicator and the fragment header, from the two bytes at the start of the unit. */
  function Prefix(kind: Kind, h0: byte, h1: byte, part: Part): (b: seq<byte>)
    ensures |b| == Extra(kind)
  {
    match kind
    case H264 => [h0 / 32 * 32 + 28, Flag(part) + h0 % 32]
    case H265 => [h0 / 128 * 128 + 98 + h0 % 2, h1, Flag(part) + h0 / 2 % 64]
  }

  /** Every buffer that the fragments of so many bytes come to has room for the headers of a fragment. */
  predicate Large(kind: Kind, len: int, sizes: seq<int>)
    decreases |sizes|
  {
    len <= 0 || sizes == []
    || (sizes[0] >= HEADER_SIZE + Extra(kind)
        && Large(kind, len - (sizes[0] - HEADER_SIZE - Extra(kind)), sizes[1..]))
  }

  /** The same for a whole unit, which is not taken apart when the first buffer is enough. */
  predicate Suitable(kind: Kind, len: int, sizes: seq<int>) {
    len <= 0 || sizes == [] || len <= sizes[0] - HEADER_SIZE
    || (sizes[0] >= HEADER_SIZE + Extra(kind)
        && Large(kind, len - NalHeader(kind) - (sizes[0] - HEADER_SIZE - Extra(kind)), sizes[1..]))
  }

  /** The fragments after the first, as far as the buffers go. */
  function Rest(kind: Kind, h0: byte, h1: byte, data: seq<byte>, sizes: seq<int>): seq<Packet>
    requires Large(kind, |data|, sizes)
    decreases |sizes|
  {
    if data == [] || sizes == [] then []
    else
      var k := sizes[0] - HEADER_SIZE - Extra(kind);
      if |data| <= k then [Packet(true, Prefix(kind, h0, h1, Last) + data)]
      else [Packet(false, Prefix(kind, h0, h1, Middle) + data[..k])] + Rest(kind, h0, h1, data[k..], sizes[1..])
  }

  /** `rtp_enc_h264` and `rtp_enc_h265`: the packets of a NAL unit, for buffers of these sizes. */
  function Packets(kind: Kind, nal: seq<byte>, sizes: seq<int>): seq<Packet>
    requires Suitable(kind, |nal|, sizes)
  {
    if nal == [] || sizes == [] then []
    else if |nal| <= sizes[0] - HEADER_SIZE then [Packet(true, nal)]
    else
      var k := sizes[0] - HEADER_SIZE - Extra(kind);
      var n := NalHeader(kind);
      [Packet(false, Prefix(kind, nal[0], nal[1], First) + nal[n..n + k])]
      + Rest(kind, nal[0], nal[1], nal[n + k..], sizes[1..])
  }

  // ---------------------------------------------------------------- the receiver

  predicate IsFragment(kind: Kind, p: seq<byte>) {
    |p| >= Extra(kind) && if kind.H264? then p[0] % 32 == 28 else p[0] / 2 % 64 == 49
  }

  function FragmentFlags(kind: Kind, p: seq<byte>): nat
    requires |p| >= Extra(kind)
  {
    p[Extra(kind) - 1] / 64
  }

  /** The header of the unit, from the indicator and the type in the fragment header. */
  function RestoredHeader(kind: Kind, p: seq<byte>): seq<byte>
    requires |p| >= Extra(kind)
  {
    match kind
    case H264 => [p[0] / 32 * 32 + p[1] % 32]
    case H265 => [p[0] / 128 * 128 + p[2] % 64 * 2 + p[0] % 2, p[1]]
  }

  /** The fragments after the first: none but the last has the end bit, and none the start bit. */
  function ReassembleRest(kind: Kind, ps: seq<Packet>): Option<seq<byte>>
    decreases |ps|
  {
    if ps == [] || !IsFragment(kind, ps[0].payload) then None
    else
      var data := ps[0].payload[Extra(kind)..];
      var flags := FragmentFlags(kind, ps[0].payload);
      if flags == 1 then if |ps| == 1 then Some(data) else None
      else if flags != 0 then None
      else
        match ReassembleRest(kind, ps[1..]) case None => None case Some(more) => Some(data + more)
  }

  /** What a receiver makes of the packets of one unit. */
  function Reassemble(kind: Kind, ps: seq<Packet>): Option<seq<byte>> {
    if ps == [] then None
    else if !IsFragment(kind, ps[0].payload) then if |ps| == 1 then Some(ps[0].payload) else None
    else if FragmentFlags(kind, ps[0].payload) != 2 then None
    else
      match ReassembleRest(kind, ps[1..])
      case None => None
      case Some(more) => Some(RestoredHeader(kind, ps[0].payload) + ps[0].payload[Extra(kind)..] + more)
  }

  // ---------------------------------------------------------------- round trip

  lemma PrefixReads(kind: Kind, h0: byte, h1: byte, part: Part, data: seq<byte>)
    ensures var p := Prefix(kind, h0, h1, part) + data;
            && IsFragment(kind, p) && p[Extra(kind)..] == data
            && FragmentFlags(kind, p) == Flag(part) / 64
            && RestoredHeader(kind, p) == if kind.H264? then [h0] else [h0, h1]
  {
    var p := Prefix(kind, h0, h1, part) + data;
    var b := Prefix(kind, h0, h1, part);
    assert p[0] == b[0] && p[1] == b[1];
    assert p[Extra(kind)..] == data;
    match kind
    case H264 =>
      H264Header(h0, Flag(part));
    case H265 =>
      assert p[2] == b[2];
      H265Header(h0, Flag(part));
  }

  lemma H264Header(h0: byte, flag: nat)
    requires flag == 128 || flag == 0 || flag == 64
    ensures var i, f := h0 / 32 * 32 + 28, flag + h0 % 32;
            i % 32 == 28 && i / 32 == h0 / 32 && f % 32 == h0 % 32 && f / 64 == flag / 64
            && h0 / 32 * 32 + h0 % 32 == h0
  {
  }

  lemma H265Header(h0: byte, flag: nat)
    requires flag == 128 || flag == 0 || flag == 64
    ensures var i, f := h0 / 128 * 128 + 98 + h0 % 2, flag + h0 / 2 % 64;
            i / 2 % 64 == 49 && i / 128 == h0 / 128 && i % 2 == h0 % 2 && f / 64 == flag / 64 && f % 64 == h0 / 2 % 64
            && h0 / 128 * 128 + h0 / 2 % 64 * 2 + h0 % 2 == h0
  {
    assert h0 / 2 % 64 == h0 / 2 - 64 * (h0 / 128);
  }

  /** How much data these buffers hold in fragments. */
  function Room(kind: Kind, sizes: seq<int>): (n: nat)
    decreases |sizes|
  {
    if sizes == [] || sizes[0] < HEADER_SIZE + Extra(kind) then 0
    else sizes[0] - HEADER_SIZE - Extra(kind) + Room(kind, sizes[1..])
  }

  /** The buffers are enough for a NAL unit. */
  predicate Enough(kind: Kind, nal: seq<byte>, sizes: seq<int>) {
    sizes != [] && (|nal| <= sizes[0] - HEADER_SIZE || |nal| - NalHeader(kind) <= Room(kind, sizes))
  }

  lemma {:induction false} RestReads(kind: Kind, h0: byte, h1: byte, data: seq<byte>, sizes: seq<int>)
    requires Large(kind, |data|, sizes) && data != []
    ensures ReassembleRest(kind, Rest(kind, h0, h1, data, sizes))
         == if |data| <= Room(kind, sizes) then Some(data) else None
    decreases |sizes|
  {
    hide *;
    FlagOf();
    if sizes == [] {
      NoRoom(kind, h0, h1, data);
    } else {
      RoomNext(kind, |data|, sizes);
      RestUnfolds(kind, h0, h1, data, sizes);
      var k := sizes[0] - HEADER_SIZE - Extra(kind);
      if |data| <= k {
        PrefixReads(kind, h0, h1, Last, data);
        LastReassembles(kind, Packet(true, Prefix(kind, h0, h1, Last) + data));
      } else {
        PrefixReads(kind, h0, h1, Middle, data[..k]);
        RestReads(kind, h0, h1, data[k..], sizes[1..]);
        NextReassembles(kind, Packet(false, Prefix(kind, h0, h1, Middle) + data[..k]),
                        Rest(kind, h0, h1, data[k..], sizes[1..]));
        assert data[..k] + data[k..] == data;
      }
    }
  }

  lemma LastReassembles(kind: Kind, p: Packet)
    requires IsFragment(kind, p.payload) && FragmentFlags(kind, p.payload) == 1
    ensures ReassembleRest(kind, [p]) == Some(p.payload[Extra(kind)..])
  {
  }

  lemma NextReassembles(kind: Kind, p: Packet, rest: seq<Packet>)
    requires IsFragment(kind, p.payload) && FragmentFlags(kind, p.payload) == 0
    ensures ReassembleRest(kind, [p] + rest)
         == match ReassembleRest(kind, rest) case None => None case Some(more) => Some(p.payload[Extra(kind)..] + more)
  {
    assert ([p] + rest)[1..] == rest;
  }

  lemma NoRoom(kind: Kind, h0: byte, h1: byte, data: seq<byte>)
    ensures Room(kind, []) == 0 && Rest(kind, h0, h1, data, []) == [] && ReassembleRest(kind, []) == None
  {
  }

  /** A unit that is sent whole, and that a receiver takes for a fragment: its type is 28, or 49 for H.265. */
  predicate Misread(kind: Kind, nal: seq<byte>, sizes: seq<int>) {
    sizes != [] && |nal| <= sizes[0] - HEADER_SIZE && IsFragment(kind, nal)
  }

  /**
    Reassembling the packets gives back the NAL unit just when the buffers are enough for it and it is
    not misread, which no unit of the standards is; otherwise nothing comes of the packets.
   */
  lemma ReassemblyIsExact(kind: Kind, nal: seq<byte>, sizes: seq<int>)
    requires Suitable(kind, |nal|, sizes) && nal != []
    ensures Reassemble(kind, Packets(kind, nal, sizes))
         == if Enough(kind, nal, sizes) && !Misread(kind, nal, sizes) then Some(nal) else None
  {
    if sizes != [] && |nal| > sizes[0] - HEADER_SIZE {
      FragmentsReassemble(kind, nal, sizes);
    } else if sizes != [] {
      var ps := Packets(kind, nal, sizes);
      assert ps[1..] == [];
    }
  }

  lemma FragmentsReassemble(kind: Kind, nal: seq<byte>, sizes: seq<int>)
    requires Suitable(kind, |nal|, sizes) && sizes != [] && nal != [] && |nal| > sizes[0] - HEADER_SIZE
    ensures Reassemble(kind, Packets(kind, nal, sizes))
         == if |nal| - NalHeader(kind) <= Room(kind, sizes) then Some(nal) else None
  {
    PacketsStart(kind, nal, sizes);
    assert Room(kind, sizes) == sizes[0] - HEADER_SIZE - Extra(kind) + Room(kind, sizes[1..]);
    var k, n := sizes[0] - HEADER_SIZE - Extra(kind), NalHeader(kind);
    assert n < Extra(kind) && |nal| >= 2;
    hide *;
    var h0, h1, body, data := nal[0], nal[1], nal[n..n + k], nal[n + k..];
    var first := Prefix(kind, h0, h1, First) + body;
    PrefixReads(kind, h0, h1, First, body);
    RestReads(kind, h0, h1, data, sizes[1..]);
    FlagOf();
    FirstReassembles(kind, Packet(false, first), Rest(kind, h0, h1, data, sizes[1..]));
    Whole(kind, nal, n, k);
  }

  lemma FlagOf()
    ensures Flag(First) / 64 == 2 && Flag(Middle) / 64 == 0 && Flag(Last) / 64 == 1
  {
  }

  lemma PacketsStart(kind: Kind, nal: seq<byte>, sizes: seq<int>)
    requires Suitable(kind, |nal|, sizes) && sizes != [] && nal != [] && |nal| > sizes[0] - HEADER_SIZE
    ensures var k, n := sizes[0] - HEADER_SIZE - Extra(kind), NalHeader(kind);
            && k >= 0 && n + k < |nal| && |nal| >= 2 && Large(kind, |nal| - n - k, sizes[1..])
            && Packets(kind, nal, sizes)
               == [Packet(false, Prefix(kind, nal[0], nal[1], First) + nal[n..n + k])]
                  + Rest(kind, nal[0], nal[1], nal[n + k..], sizes[1..])
  {
    hide Prefix;
    hide Rest;
  }

  lemma FirstReassembles(kind: Kind, p: Packet, rest: seq<Packet>)
    requires IsFragment(kind, p.payload) && FragmentFlags(kind, p.payload) == 2
    ensures Reassemble(kind, [p] + rest)
         == match ReassembleRest(kind, rest)
            case None => None
            case Some(more) => Some(RestoredHeader(kind, p.payload) + p.payload[Extra(kind)..] + more)
  {
    assert ([p] + rest)[1..] == rest;
  }

  lemma Whole(kind: Kind, nal: seq<byte>, n: nat, k: nat)
    requires n == NalHeader(kind) && n + k <= |nal| && |nal| >= 2
    ensures (if kind.H264? then [nal[0]] else [nal[0], nal[1]]) + nal[n..n + k] + nal[n + k..] == nal
  {
    assert nal[..n] == if kind.H264? then [nal[0]] else [nal[0], nal[1]];
    assert nal[..n] + nal[n..n + k] + nal[n + k..] == nal;
  }

  // ---------------------------------------------------------------- marker, start and end

  /** The start bit, the end bit and the marker of packet `k` of `n` fragments. */
  predicate Signed(kind: Kind, p: Packet, k: int, n: int) {
    && IsFragment(kind, p.payload)
    && (FragmentFlags(kind, p.payload) == if k == 0 then 2 else if p.marker then 1 else 0)
    && (p.marker <==> k == n - 1)
  }

  lemma RoomNext(kind: Kind, len: nat, sizes: seq<int>)
    requires Large(kind, len, sizes) && sizes != [] && len > 0
    ensures sizes[0] >= HEADER_SIZE + Extra(kind)
    ensures Large(kind, len - (sizes[0] - HEADER_SIZE - Extra(kind)), sizes[1..])
    ensures Room(kind, sizes) == sizes[0] - HEADER_SIZE - Extra(kind) + Room(kind, sizes[1..])
    ensures sizes[1..] == [] ==> Room(kind, sizes[1..]) == 0
  {
  }

  lemma RestUnfolds(kind: Kind, h0: byte, h1: byte, data: seq<byte>, sizes: seq<int>)
    requires Large(kind, |data|, sizes) && data != [] && sizes != []
    ensures var k := sizes[0] - HEADER_SIZE - Extra(kind);
            Rest(kind, h0, h1, data, sizes)
            == if |data| <= k then [Packet(true, Prefix(kind, h0, h1, Last) + data)]
               else [Packet(false, Prefix(kind, h0, h1, Middle) + data[..k])]
                    + Rest(kind, h0, h1, data[k..], sizes[1..])
  {
    hide Prefix;
  }

  lemma {:induction false} RestSigned(kind: Kind, h0: byte, h1: byte, data: seq<byte>, sizes: seq<int>, i: nat)
    requires Large(kind, |data|, sizes) && data != [] && sizes != [] && |data| <= Room(kind, sizes)
    ensures var ps := Rest(kind, h0, h1, data, sizes);
            ps != [] && (i < |ps| ==> Signed(kind, ps[i], i + 1, |ps| + 1))
    decreases |sizes|
  {
    hide Prefix;
    hide Signed;
    hide Room;
    hide Large;
    hide Rest;
    RoomNext(kind, |data|, sizes);
    var k := sizes[0] - HEADER_SIZE - Extra(kind);
    var ps := Rest(kind, h0, h1, data, sizes);
    RestUnfolds(kind, h0, h1, data, sizes);
    if |data| <= k {
      PartSigned(kind, h0, h1, Last, data, 1, 2);
    } else {
      var more := Rest(kind, h0, h1, data[k..], sizes[1..]);
      RestSigned(kind, h0, h1, data[k..], sizes[1..], if i > 0 then i - 1 else 0);
      if i == 0 {
        PartSigned(kind, h0, h1, Middle, data[..k], 1, |more| + 2);
      } else if i < |ps| {
        SignedNext(kind, more[i - 1], i, |more| + 1);
        assert ps[i] == more[i - 1];
      }
    }
  }

  lemma PartSigned(kind: Kind, h0: byte, h1: byte, part: Part, data: seq<byte>, k: int, n: int)
    requires !part.First? && k > 0 && (part.Last? <==> k == n - 1)
    ensures Signed(kind, Packet(part.Last?, Prefix(kind, h0, h1, part) + data), k, n)
  {
    PrefixReads(kind, h0, h1, part, data);
    hide Prefix;
    hide IsFragment;
    hide FragmentFlags;
  }

  lemma SignedNext(kind: Kind, p: Packet, k: int, n: int)
    requires k > 0 && Signed(kind, p, k, n)
    ensures Signed(kind, p, k + 1, n + 1)
  {
  }

  lemma MoreBuffers(kind: Kind, nal: seq<byte>, sizes: seq<int>)
    requires Suitable(kind, |nal|, sizes) && nal != []
    requires Enough(kind, nal, sizes) && |nal| > sizes[0] - HEADER_SIZE
    ensures sizes[1..] != []
    ensures |nal| - NalHeader(kind) - (sizes[0] - HEADER_SIZE - Extra(kind)) <= Room(kind, sizes[1..])
  {
    assert sizes[1..] == [] ==> Room(kind, sizes[1..]) == 0;
  }

  /**
    With enough buffers, the marker bit is on the last packet and on no other; of fragments, only the
    first has the start bit and only the last the end bit, and they are two at least.
   */
  lemma SignsAreRight(kind: Kind, nal: seq<byte>, sizes: seq<int>, i: nat)
    requires Suitable(kind, |nal|, sizes) && nal != [] && Enough(kind, nal, sizes)
    requires i < |Packets(kind, nal, sizes)|
    ensures var ps := Packets(kind, nal, sizes);
            if |ps| == 1 then ps[0] == Packet(true, nal) else Signed(kind, ps[i], i, |ps|)
  {
    if |nal| > sizes[0] - HEADER_SIZE {
      var k, n := sizes[0] - HEADER_SIZE - Extra(kind), NalHeader(kind);
      PrefixReads(kind, nal[0], nal[1], First, nal[n..n + k]);
      hide Prefix;
      hide IsFragment;
      hide FragmentFlags;
      hide Rest;
      MoreBuffers(kind, nal, sizes);
      RestSigned(kind, nal[0], nal[1], nal[n + k..], sizes[1..], if i > 0 then i - 1 else 0);
    }
  }

}
