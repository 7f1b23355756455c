/**
  The variable-size FIFO allocator (oslib/src/fifobuf.c): blocks with their sizes in front, laid one
  behind the other in a buffer that is used round and round, with an unused gap at its end.
 */
module FifoBuffer {
  import opened Common

  /** `SZ` */
  const HEADER := 4

  /** A block that is handed out: where its size stands, and the size with the header. */
  datatype Block = Block(at: nat, size: nat)

  /** Either one row of blocks, or a row up to `gap` whose `cut` blocks are older than a row from 0. */
  datatype Shape = Straight | Wrapped(cut: nat, gap: nat)

  // ---------------------------------------------------------------- rows of blocks

  /** The blocks lie one behind the other, from `start` to `end`. */
  predicate Row(bs: seq<Block>, start: nat, end: nat)
    decreases |bs|
  {
    if bs == [] then start == end
    else bs[0].at == start && bs[0].size >= HEADER && Row(bs[1..], start + bs[0].size, end)
  }

  lemma {:induction false} RowAppend(bs: seq<Block>, start: nat, end: nat, b: Block)
    requires Row(bs, start, end) && b.at == end && b.size >= HEADER
    ensures Row(bs + [b], start, end + b.size)
    decreases |bs|
  {
    if bs == [] {
      assert bs + [b] == [b] && [b][1..] == [];
    } else {
      assert (bs + [b])[1..] == bs[1..] + [b];
      RowAppend(bs[1..], start + bs[0].size, end, b);
    }
  }

  lemma {:induction false} RowBounds(bs: seq<Block>, start: nat, end: nat)
    requires Row(bs, start, end)
    ensures start <= end && (bs != [] ==> start + HEADER <= end)
    ensures forall k :: 0 <= k < |bs| ==> start <= bs[k].at && bs[k].at + bs[k].size <= end && bs[k].size >= HEADER
    decreases |bs|
  {
    if bs != [] {
      RowBounds(bs[1..], start + bs[0].size, end);
      forall k | 0 <= k < |bs|
        ensures start <= bs[k].at && bs[k].at + bs[k].size <= end && bs[k].size >= HEADER
      {
        if k > 0 {
          assert bs[k] == bs[1..][k - 1];
        }
      }
    }
  }

  /** Two blocks share no byte. */
  predicate Apart(b: Block, c: Block) {
    b.at + b.size <= c.at || c.at + c.size <= b.at
  }

  lemma {:induction false} RowApart(bs: seq<Block>, start: nat, end: nat, i: nat, j: nat)
    requires Row(bs, start, end) && i < j < |bs|
    ensures Apart(bs[i], bs[j])
    decreases |bs|
  {
    RowBounds(bs[1..], start + bs[0].size, end);
    if i == 0 {
      assert bs[j] == bs[1..][j - 1];
    } else {
      RowApart(bs[1..], start + bs[0].size, end, i - 1, j - 1);
    }
  }

  // ---------------------------------------------------------------- the layout

  /** How the live blocks lie in a buffer of `n` bytes, and what the pointers and the flag say about it. */
  predicate Layout(n: nat, read: nat, write: nat, full: bool, bs: seq<Block>, shape: Shape) {
    match shape
    case Straight =>
      && !full && Row(bs, read, write)
      && (if bs == [] then read == 0 && write == 0 else write < n)
    case Wrapped(cut, gap) =>
      && cut <= |bs| && Row(bs[..cut], read, gap) && Row(bs[cut..], 0, write)
      && write <= read < n && gap <= n && (full <==> write == read)
      && (if bs[cut..] == [] then cut > 0 && gap == n else cut > 0 || gap < n)
  }

  /** Live blocks lie inside the buffer and share no byte, across the wrap and the gap. */
  lemma BlocksApart(n: nat, read: nat, write: nat, full: bool, bs: seq<Block>, shape: Shape)
    requires Layout(n, read, write, full, bs, shape)
    ensures forall k :: 0 <= k < |bs| ==> bs[k].size >= HEADER && bs[k].at + bs[k].size <= n
    ensures forall i, j :: 0 <= i < j < |bs| ==> Apart(bs[i], bs[j])
  {
    match shape
    case Straight =>
      RowBounds(bs, read, write);
      forall i, j | 0 <= i < j < |bs|
        ensures Apart(bs[i], bs[j])
      {
        RowApart(bs, read, write, i, j);
      }
    case Wrapped(cut, gap) =>
      var front, back := bs[..cut], bs[cut..];
      RowBounds(front, read, gap);
      RowBounds(back, 0, write);
      forall k | 0 <= k < |bs|
        ensures bs[k].size >= HEADER && bs[k].at + bs[k].size <= n
        ensures if k < cut then read <= bs[k].at else bs[k].at + bs[k].size <= write
      {
        assert if k < cut then bs[k] == front[k] else bs[k] == back[k - cut];
      }
      forall i, j | 0 <= i < j < |bs|
        ensures Apart(bs[i], bs[j])
      {
        if j < cut {
          assert bs[i] == front[i] && bs[j] == front[j];
          RowApart(front, read, gap, i, j);
        } else if i >= cut {
          assert bs[i] == back[i - cut] && bs[j] == back[j - cut];
          RowApart(back, 0, write, i - cut, j - cut);
        } else {
          assert bs[i] == front[i] && bs[j] == back[j - cut];
        }
      }
  }

  // ---------------------------------------------------------------- sizes in the buffer

  /** The size in front of a block. */
  function SizeAt(s: seq<byte>, at: nat): nat
    requires at + HEADER <= |s|
  {
    FromLittle32(s[at..])
  }

  lemma SizeReads(n: nat, s: seq<byte>, at: nat)
    requires n < U32 && at + HEADER <= |s| && s[at..at + HEADER] == Little32(n)
    ensures SizeAt(s, at) == n
  {
    hide FromLittle32;
    assert s[at..] == Little32(n) + s[at + HEADER..];
    Little32RoundTrip(n, s[at + HEADER..]);
  }

  /** The header of every live block says its size. */
  predicate Headed(s: seq<byte>, bs: seq<Block>) {
    forall k :: 0 <= k < |bs| ==> bs[k].at + HEADER <= |s| && SizeAt(s, bs[k].at) == bs[k].size
  }

  // ---------------------------------------------------------------- what an allocation does

  /** `FIFO_GetMaxSize` */
  function MaxSize(n: nat, read: nat, write: nat): nat
    requires read <= n && write <= n
  {
    if write >= read then (if n - write < read then read else n - write) else read - write
  }

  datatype Place = Nowhere | At(at: nat)

  /** `_uSize + SZ`, where `size_t` is wider than `unsigned`, or as wide. */
  function Need(wide: bool, size: u32): nat {
    if wide then size + HEADER else (size + HEADER) % U32
  }

  /** The size with its header does not wrap. */
  predicate Counts(wide: bool, size: u32) {
    wide || size + HEADER < U32
  }

  /** The tests of `FIFO_Alloc`. */
  predicate Granted(wide: bool, n: nat, read: nat, write: nat, full: bool, size: u32)
    requires read <= n && write <= n
  {
    !full && Need(wide, size) <= MaxSize(n, read, write)
  }

  /**
    Exactly when a block is handed out without room for the size asked for: the size wraps together with
    its header, and what is left of it fits.
   */
  lemma GrantedWithoutRoom(wide: bool, n: nat, read: nat, write: nat, full: bool, size: u32)
    requires n < U32 && read <= n && write <= n
    ensures Granted(wide, n, read, write, full, size) && size + HEADER > MaxSize(n, read, write)
            <==> !full && !Counts(wide, size) && size + HEADER - U32 <= MaxSize(n, read, write)
  {
    assert !Counts(wide, size) ==> Need(wide, size) == size + HEADER - U32;
    assert Counts(wide, size) ==> Need(wide, size) == size + HEADER;
  }

  /** Where a block goes that fits: behind the newest one, or else at the start of the buffer. */
  function StartOf(n: nat, read: nat, write: nat, need: nat): nat {
    if write > read && write + need > n then 0 else write
  }

  /** The write pointer after that; the end of the buffer is its start. */
  function WriteAfter(n: nat, read: nat, write: nat, need: nat): nat {
    var end := StartOf(n, read, write, need) + need;
    if end == n then 0 else end
  }

  lemma AllocAtWrite(n: nat, read: nat, write: nat, bs: seq<Block>, shape: Shape, size: nat)
    requires Layout(n, read, write, false, bs, shape) && size >= HEADER
    requires write >= read && write + size <= n
    ensures var next := if write + size == n then 0 else write + size;
            var more := bs + [Block(write, size)];
            Layout(n, read, next, next == read, more, if next == 0 then Wrapped(|more|, n) else Straight)
  {
    var more := bs + [Block(write, size)];
    assert shape.Straight?;
    RowBounds(bs, read, write);
    RowAppend(bs, read, write, Block(write, size));
    assert more[..|more|] == more && more[|more|..] == [];
  }

  lemma AllocBelow(n: nat, read: nat, write: nat, bs: seq<Block>, shape: Shape, size: nat)
    requires Layout(n, read, write, false, bs, shape) && size >= HEADER
    requires var start := if write <= read then write else 0; start + size <= read
    requires write >= read ==> write + size > n
    ensures var start := if write <= read then write else 0;
            var more := bs + [Block(start, size)];
            Layout(n, read, start + size, start + size == read, more,
                   if shape.Straight? then Wrapped(|bs|, write) else shape)
  {
    var start := if write <= read then write else 0;
    var more := bs + [Block(start, size)];
    match shape
    case Straight =>
      RowBounds(bs, read, write);
      assert more[..|bs|] == bs && more[|bs|..] == [Block(start, size)];
      assert [Block(start, size)][1..] == [];
    case Wrapped(cut, gap) =>
      assert more[..cut] == bs[..cut] && more[cut..] == bs[cut..] + [Block(start, size)];
      RowAppend(bs[cut..], 0, write, Block(start, size));
  }

  // ---------------------------------------------------------------- what freeing the oldest block does

  /** The pointers after the oldest block is freed. */
  function AfterFree(n: nat, write: nat, b: Block): (nat, nat) {
    var r := if b.at + b.size == n then 0 else b.at + b.size;
    if r == write then (0, 0) else (r, write)
  }

  function ShapeAfter(n: nat, write: nat, b: Block, shape: Shape): Shape {
    match shape
    case Straight => Straight
    case Wrapped(cut, gap) => if cut == 0 || b.at + b.size == n then Straight else Wrapped(cut - 1, gap)
  }

  lemma FreeOldest(n: nat, read: nat, write: nat, full: bool, bs: seq<Block>, shape: Shape)
    requires Layout(n, read, write, full, bs, shape) && bs != []
    ensures bs[0].at == read || bs[0].at == 0
    ensures bs[0].at + bs[0].size <= if write > read then write else n
    ensures var (r, w) := AfterFree(n, write, bs[0]);
            Layout(n, r, w, false, bs[1..], ShapeAfter(n, write, bs[0], shape))
  {
    var b, rest := bs[0], bs[1..];
    match shape
    case Straight =>
      RowBounds(bs, read, write);
      RowBounds(rest, read + b.size, write);
    case Wrapped(cut, gap) =>
      var front, back := bs[..cut], bs[cut..];
      RowBounds(front, read, gap);
      RowBounds(back, 0, write);
      if cut == 0 {
        assert back == bs && front == [];
        RowBounds(rest, b.size, write);
      } else {
        assert front[0] == b && front[1..] == rest[..cut - 1] && back == rest[cut - 1..];
        RowBounds(front[1..], read + b.size, gap);
        if b.at + b.size == n {
          assert front[1..] == [];
          assert rest == back;
        }
      }
  }

  // ---------------------------------------------------------------- the allocator

  class Fifo {
    const buf: array<byte>
    /** Whether `size_t` is wider than `unsigned`. */
    const wide: bool
    var read: nat
    var write: nat
    var full: bool
    /** The live blocks, oldest first, and how they lie. */
    ghost var blocks: seq<Block>
    ghost var shape: Shape

    ghost predicate Valid()
      reads this, buf
    {
      && buf.Length < U32
      && Layout(buf.Length, read, write, full, blocks, shape)
      && Headed(buf[..], blocks)
      && read <= buf.Length && write <= buf.Length
    }

    /** `FIFO_Init` */
    constructor (buffer: array<byte>, wide: bool)
      requires buffer.Length < U32
      ensures Valid() && buf == buffer && this.wide == wide && blocks == [] && !full && read == 0 && write == 0
    {
      buf, this.wide := buffer, wide;
      read, write, full := 0, 0, false;
      blocks, shape := [], Straight;
    }

    /** `FIFO_GetMaxSize` */
    method GetMaxSize() returns (n: nat)
      requires Valid()
      ensures n == MaxSize(buf.Length, read, write)
    {
      var s1, s2: nat;
      if write >= read {
        s1, s2 := buf.Length - write, read;
      } else {
        s1, s2 := read - write, read - write;
      }
      n := if s1 < s2 then s2 else s1;
    }

    /** The size goes in front of the block. */
    method PutSize(at: nat, size: nat)
      requires at + HEADER <= buf.Length && size < U32
      modifies buf
      ensures SizeAt(buf[..], at) == size
      ensures forall i :: 0 <= i < buf.Length && !(at <= i < at + HEADER) ==> buf[i] == old(buf[i])
    {
      var b := Little32(size);
      buf[at], buf[at + 1], buf[at + 2], buf[at + 3] := b[0], b[1], b[2], b[3];
      assert buf[..][at..at + HEADER] == b;
      SizeReads(size, buf[..], at);
    }

    /**
      `FIFO_Alloc`: there is a block just when the buffer is not full and the size with its header, which may
      wrap, is at most what `FIFO_GetMaxSize` says; no byte changes but those of its header.
     */
    method Alloc(size: u32) returns (place: Place)
      requires Valid()
      modifies this, buf
      ensures place.At? <==> Granted(wide, buf.Length, old(read), old(write), old(full), size)
      ensures place.At? ==>
                && place.at == StartOf(buf.Length, old(read), old(write), Need(wide, size)) + HEADER
                && read == old(read) && write == WriteAfter(buf.Length, old(read), old(write), Need(wide, size))
                && (full <==> write == read)
      ensures place.At? ==>
                forall i | 0 <= i < buf.Length && !(place.at - HEADER <= i < place.at) :: buf[i] == old(buf[i])
      ensures place.At? && Counts(wide, size) ==>
                Valid() && blocks == old(blocks) + [Block(place.at - HEADER, size + HEADER)]
      ensures place.Nowhere? ==> Valid() && unchanged(this) && unchanged(buf)
    {
      hide Layout;
      hide Headed;
      if full {
        return Nowhere;
      }
      var need := Need(wide, size);
      EmptyAtStart(buf.Length, read, write, full, blocks, shape);
      if write >= read {
        var available := buf.Length - write;
        if available >= need {
          if need >= HEADER {
            place := TakeAtWrite(need);
          } else {
            place := TakeLess(write, need);
          }
          return;
        }
      }
      var start := if write <= read then write else 0;
      var available := read - start;
      if available >= need {
        if need >= HEADER {
          place := TakeBelow(start, need);
        } else {
          place := TakeLess(start, need);
        }
        return;
      }
      return Nowhere;
    }

    /** A size that has wrapped: the block is less than its header, which is written all the same. */
    method TakeLess(start: nat, need: nat) returns (place: Place)
      requires need < HEADER && start + need <= buf.Length < U32
      modifies this`write, this`full, buf
      ensures place == At(start + HEADER) && write == if start + need == buf.Length then 0 else start + need
      ensures full <==> old(full) || write == read
      ensures forall i :: 0 <= i < HEADER && start + i < buf.Length ==> buf[start + i] == Little32(need)[i]
      ensures forall i :: 0 <= i < buf.Length && !(start <= i < start + HEADER) ==> buf[i] == old(buf[i])
    {
      write := start + need;
      if write == buf.Length {
        write := 0;
      }
      if write == read {
        full := true;
      }
      var b, i := Little32(need), 0;
      while i < HEADER && start + i < buf.Length
        invariant i <= HEADER && (i > 0 ==> start + i <= buf.Length)
        invariant forall k :: 0 <= k < i ==> buf[start + k] == b[k]
        invariant forall k :: 0 <= k < buf.Length && !(start <= k < start + HEADER) ==> buf[k] == old(buf[k])
        modifies buf
      {
        buf[start + i] := b[i];
        i := i + 1;
      }
      return At(start + HEADER);
    }

    /** The block fits between the write pointer and the end of the buffer. */
    method TakeAtWrite(need: nat) returns (place: Place)
      requires Valid() && !full && need >= HEADER && write >= read && write + need <= buf.Length
      modifies this, buf
      ensures Valid() && place == At(old(write) + HEADER) && blocks == old(blocks) + [Block(old(write), need)]
      ensures read == old(read) && write == (if old(write) + need == buf.Length then 0 else old(write) + need)
      ensures full <==> write == read
      ensures forall i :: 0 <= i < buf.Length && !(old(write) <= i < old(write) + HEADER) ==> buf[i] == old(buf[i])
    {
      hide Layout;
      hide Headed;
      var p := write;
      ghost var bs := blocks;
      AllocAtWrite(buf.Length, read, write, blocks, shape, need);
      blocks := blocks + [Block(p, need)];
      write := write + need;
      if write == buf.Length {
        write := 0;
      }
      if write == read {
        full := true;
      }
      shape := if write == 0 then Wrapped(|blocks|, buf.Length) else Straight;
      BlocksApart(buf.Length, read, write, full, blocks, shape);
      PutHeader(p, need, bs);
      return At(p + HEADER);
    }

    /** The block fits below the read pointer; what is left at the end of the buffer becomes the gap. */
    method TakeBelow(start: nat, need: nat) returns (place: Place)
      requires Valid() && !full && need >= HEADER && start == (if write <= read then write else 0)
               && start + need <= read
      requires write >= read ==> write + need > buf.Length
      modifies this, buf
      ensures Valid() && place == At(start + HEADER) && blocks == old(blocks) + [Block(start, need)]
      ensures read == old(read) && write == start + need && (full <==> write == read)
      ensures forall i :: 0 <= i < buf.Length && !(start <= i < start + HEADER) ==> buf[i] == old(buf[i])
    {
      hide Layout;
      hide Headed;
      ghost var bs := blocks;
      AllocBelow(buf.Length, read, write, blocks, shape, need);
      shape := if shape.Straight? then Wrapped(|blocks|, write) else shape;
      blocks := blocks + [Block(start, need)];
      write := start + need;
      if write == read {
        full := true;
      }
      BlocksApart(buf.Length, read, write, full, blocks, shape);
      PutHeader(start, need, bs);
      return At(start + HEADER);
    }

    /** The header of the newest block; those of the others stay. */
    method PutHeader(at: nat, size: nat, ghost older: seq<Block>)
      requires blocks == older + [Block(at, size)] && Headed(buf[..], older) && size < U32
      requires forall k :: 0 <= k < |blocks| ==> blocks[k].size >= HEADER && blocks[k].at + blocks[k].size <= buf.Length
      requires forall i, j :: 0 <= i < j < |blocks| ==> Apart(blocks[i], blocks[j])
      modifies buf
      ensures Headed(buf[..], blocks)
      ensures forall i :: 0 <= i < buf.Length && !(at <= i < at + HEADER) ==> buf[i] == old(buf[i])
    {
      hide SizeAt;
      ghost var was := buf[..];
      ghost var n := |older|;
      assert blocks[n] == Block(at, size);
      PutSize(at, size);
      forall k | 0 <= k < |blocks|
        ensures SizeAt(buf[..], blocks[k].at) == blocks[k].size
      {
        if k < n {
          assert blocks[k] == older[k];
          assert Apart(blocks[k], blocks[n]);
          SameSize(was, buf[..], blocks[k].at);
        }
      }
    }

    /**
      `FIFO_Free`, for any pointer whose size can be read.  It is refused just when it is outside the
      buffer, neither at the read pointer nor at the start, or with a size too large.  The oldest block is
      never refused, and just that block goes away.
     */
    method Free(pointer: int) returns (ok: bool)
      requires Valid()
      requires var p := pointer - HEADER; 0 <= p < buf.Length && (p == read || p == 0) ==> p + HEADER <= buf.Length
      modifies this
      ensures ok <==> Accepted(buf[..], old(read), old(write), pointer - HEADER)
      ensures !ok ==> unchanged(this)
      ensures ok ==> !full
                     && (read, write) == AfterFree(buf.Length, old(write),
                                                   Block(pointer - HEADER, SizeAt(buf[..], pointer - HEADER)))
      ensures old(blocks) != [] && pointer - HEADER == old(blocks)[0].at ==> ok && Valid() && blocks == old(blocks)[1..]
    {
      hide Layout;
      hide SizeAt;
      ghost var oldest := blocks != [] && pointer - HEADER == blocks[0].at;
      if blocks != [] {
        FreeOldest(buf.Length, read, write, full, blocks, shape);
        BlocksApart(buf.Length, read, write, full, blocks, shape);
      }
      var p := pointer - HEADER;
      if p < 0 || p >= buf.Length {
        return false;
      }
      if p != read && p != 0 {
        return false;
      }
      var end := if write > read then write else buf.Length;
      var size := SizeAt(buf[..], p);
      if p + size > end {
        return false;
      }
      if oldest {
        shape := ShapeAfter(buf.Length, write, blocks[0], shape);
        assert Headed(buf[..], blocks[1..]) by {
          assert forall k :: 0 <= k < |blocks[1..]| ==> blocks[1..][k] == blocks[k + 1];
        }
        blocks := blocks[1..];
      }
      read := p + size;
      if read == buf.Length {
        read := 0;
      }
      if read == write {
        read, write := 0, 0;
      }
      full := false;
      ok := true;
    }
  }

  /** The tests of `FIFO_Free`. */
  predicate Accepted(s: seq<byte>, read: nat, write: nat, p: int)
    requires 0 <= p < |s| && (p == read || p == 0) ==> p + HEADER <= |s|
  {
    0 <= p < |s| && (p == read || p == 0) && p + SizeAt(s, p) <= if write > read then write else |s|
  }

  /**
    What a free out of order does that the tests let through: the block at the start is freed while older
    ones are live.  It is accepted, and from then on the oldest block, still live, lies in what the
    allocator takes for free space behind the write pointer.
   */
  lemma FreeTooEarly(s: seq<byte>, read: nat, write: nat, full: bool, bs: seq<Block>, cut: nat, gap: nat)
    requires Layout(|s|, read, write, full, bs, Wrapped(cut, gap)) && Headed(s, bs) && 0 < cut < |bs|
    ensures var b := bs[cut];
            && b.at == 0 && b.at + HEADER <= |s| && Accepted(s, read, write, b.at)
            && var (r, w) := AfterFree(|s|, write, b);
               r <= w <= bs[0].at && bs[0].at + bs[0].size <= |s|
  {
    hide SizeAt;
    var front, back := bs[..cut], bs[cut..];
    BlocksApart(|s|, read, write, full, bs, Wrapped(cut, gap));
    assert back[0] == bs[cut] && front[0] == bs[0];
    RowBounds(back, 0, write);
    RowBounds(front, read, gap);
  }

  /** Of the live blocks, the oldest is accepted, one at the start of the buffer, and no other. */
  lemma AcceptedBlocks(s: seq<byte>, read: nat, write: nat, full: bool, bs: seq<Block>, shape: Shape, k: nat)
    requires Layout(|s|, read, write, full, bs, shape) && Headed(s, bs) && k < |bs|
    ensures bs[k].at + HEADER <= |s|
    ensures Accepted(s, read, write, bs[k].at) <==> k == 0 || bs[k].at == 0
  {
    hide SizeAt;
    BlocksApart(|s|, read, write, full, bs, shape);
    match shape
    case Straight =>
      RowPlaces(bs, read, write, k);
    case Wrapped(cut, gap) =>
      var front, back := bs[..cut], bs[cut..];
      if k < cut {
        assert front[k] == bs[k];
        RowPlaces(front, read, gap, k);
      } else {
        assert back[k - cut] == bs[k];
        RowPlaces(back, 0, write, k - cut);
      }
  }

  /** In a row only the first block is at its start. */
  lemma RowPlaces(bs: seq<Block>, start: nat, end: nat, k: nat)
    requires Row(bs, start, end) && k < |bs|
    ensures start <= bs[k].at && bs[k].at + bs[k].size <= end && bs[k].size >= HEADER
    ensures bs[k].at == start <==> k == 0
  {
    RowBounds(bs, start, end);
    if k > 0 {
      RowBounds(bs[1..], start + bs[0].size, end);
      assert bs[k] == bs[1..][k - 1];
    }
  }

  /**
    Exactly when the order is enforced: every live block but the oldest is refused, unless there are
    older blocks up to the gap and newer ones from the start of the buffer.
   */
  lemma OrderIsEnforced(s: seq<byte>, read: nat, write: nat, full: bool, bs: seq<Block>, shape: Shape)
    requires Layout(|s|, read, write, full, bs, shape) && Headed(s, bs)
    ensures forall k :: 0 <= k < |bs| ==> bs[k].at + HEADER <= |s|
    ensures (forall k :: 0 < k < |bs| ==> !Accepted(s, read, write, bs[k].at))
            <==> !(shape.Wrapped? && 0 < shape.cut < |bs|)
  {
    hide SizeAt;
    forall k | 0 <= k < |bs|
      ensures bs[k].at + HEADER <= |s|
      ensures Accepted(s, read, write, bs[k].at) <==> k == 0 || bs[k].at == 0
    {
      AcceptedBlocks(s, read, write, full, bs, shape, k);
    }
    hide Accepted;
    match shape
    case Straight =>
      forall k | 0 < k < |bs|
        ensures bs[k].at != 0
      {
        RowPlaces(bs, read, write, k);
      }
    case Wrapped(cut, gap) =>
      var front, back := bs[..cut], bs[cut..];
      forall k | 0 < k < |bs|
        ensures bs[k].at == 0 <==> k == cut
      {
        if k < cut {
          assert front[k] == bs[k];
          RowPlaces(front, read, gap, k);
        } else {
          assert back[k - cut] == bs[k];
          RowPlaces(back, 0, write, k - cut);
        }
      }
  }

  /**
    A run that comes to it, in 24 bytes: three blocks, the first freed, a fourth where it was, and that
    one freed.  The pointers then say that all of the buffer is free, while two older blocks are live.
   */
  method EarlyFreeRun(wide: bool) returns (f: Fifo, ghost live: seq<Block>)
    ensures f.buf.Length == 24 && live == [Block(8, 8), Block(16, 8)]
    ensures f.read == 0 && f.write == 0 && !f.full && MaxSize(24, f.read, f.write) == 24
  {
    f := ThreeBlocks(wide);
    hide Layout;
    hide Headed;
    hide SizeAt;
    hide Accepted;
    BlockIsAccepted(f, 0);
    var first := f.Free(4);
    assert f.blocks == [Block(8, 8), Block(16, 8)];
    live := f.blocks;
    var newest := f.Alloc(4);
    assert f.blocks == [Block(8, 8), Block(16, 8), Block(0, 8)];
    BlockIsAccepted(f, 2);
    var second := f.Free(4);
  }

  method ThreeBlocks(wide: bool) returns (f: Fifo)
    ensures fresh(f) && fresh(f.buf) && f.Valid() && f.buf.Length == 24 && f.full && f.read == 0 && f.write == 0
    ensures f.blocks == [Block(0, 8), Block(8, 8), Block(16, 8)]
  {
    hide Layout;
    hide Headed;
    var buffer := new byte[24];
    f := new Fifo(buffer, wide);
    var a := f.Alloc(4);
    var b := f.Alloc(4);
    var c := f.Alloc(4);
    assert f.blocks == [Block(0, 8)] + [Block(8, 8)] + [Block(16, 8)];
  }

  lemma BlockIsAccepted(f: Fifo, k: nat)
    requires f.Valid() && k < |f.blocks| && f.blocks[k].at == 0
    ensures f.buf.Length >= HEADER && SizeAt(f.buf[..], 0) == f.blocks[k].size
    ensures Accepted(f.buf[..], f.read, f.write, 0)
  {
    AcceptedBlocks(f.buf[..], f.read, f.write, f.full, f.blocks, f.shape, k);
  }

  lemma SameSize(s: seq<byte>, t: seq<byte>, at: nat)
    requires at + HEADER <= |s| == |t| && forall i :: at <= i < at + HEADER ==> s[i] == t[i]
    ensures SizeAt(s, at) == SizeAt(t, at)
  {
  }

  /** Where both pointers meet and the buffer is not full, it is empty and they are at the start. */
  lemma EmptyAtStart(n: nat, read: nat, write: nat, full: bool, bs: seq<Block>, shape: Shape)
    requires Layout(n, read, write, full, bs, shape)
    ensures read == write && !full ==> read == 0 && bs == []
    ensures read > 0 ==> read < n
  {
    if shape.Straight? {
      RowBounds(bs, read, write);
    }
  }

  /** The byte belongs to what a holder of a live block may write. */
  predicate InPayload(bs: seq<Block>, i: nat) {
    exists k :: 0 <= k < |bs| && bs[k].at + HEADER <= i < bs[k].at + bs[k].size
  }

  lemma HeaderIsNot(bs: seq<Block>, k: nat, i: nat)
    requires k < |bs| && bs[k].at <= i < bs[k].at + HEADER && bs[k].size >= HEADER
    requires forall a, b :: 0 <= a < b < |bs| ==> Apart(bs[a], bs[b])
    ensures !InPayload(bs, i)
  {
    forall j | 0 <= j < |bs|
      ensures !(bs[j].at + HEADER <= i < bs[j].at + bs[j].size)
    {
      assert j < k ==> Apart(bs[j], bs[k]);
      assert k < j ==> Apart(bs[k], bs[j]);
    }
  }

  /** Whatever the holders write into their blocks, no size in the buffer is touched. */
  lemma PayloadIsTheirs(read: nat, write: nat, full: bool, bs: seq<Block>, shape: Shape, s: seq<byte>, t: seq<byte>)
    requires Layout(|s|, read, write, full, bs, shape) && Headed(s, bs) && |t| == |s|
    requires forall i :: 0 <= i < |s| && t[i] != s[i] ==> InPayload(bs, i)
    ensures Headed(t, bs)
  {
    hide SizeAt;
    BlocksApart(|s|, read, write, full, bs, shape);
    hide Layout;
    forall k | 0 <= k < |bs|
      ensures SizeAt(t, bs[k].at) == bs[k].size
    {
      forall i | bs[k].at <= i < bs[k].at + HEADER
        ensures t[i] == s[i]
      {
        HeaderIsNot(bs, k, i);
      }
      SameSize(s, t, bs[k].at);
    }
  }
}
