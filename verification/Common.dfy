/** Bytes, memory and what else several modules need. */
module Common {

  type byte = x: int | 0 <= x < 256

  const U32 := 0x1_0000_0000

  type u32 = x: int | 0 <= x < U32

  datatype Option<+T> = None | Some(value: T)

  /** The bytes from a pointer on, inside a buffer and behind it. */
  type Memory = nat -> byte

  function Slice(m: Memory, at: nat, n: nat): (s: seq<byte>)
    ensures |s| == n && forall k :: 0 <= k < n ==> s[k] == m(at + k)
  {
    seq(n, k requires k >= 0 => m(at + k))
  }

  function Power2(n: nat): (p: nat)
    ensures p > 0
  {
    if n == 0 then 1 else 2 * Power2(n - 1)
  }

  /** Outside `pos` to `end` nothing was changed. */
  twostate predicate Untouched(a: array<byte>, pos: nat, end: nat)
    requires pos <= end <= a.Length
    reads a
  {
    forall i :: 0 <= i < a.Length && !(pos <= i < end) ==> a[i] == old(a[i])
  }

  /** `memcpy` into a buffer. */
  method Copy(a: array<byte>, pos: nat, b: seq<byte>)
    requires pos + |b| <= a.Length
    modifies a
    ensures Untouched(a, pos, pos + |b|) && a[..][pos..pos + |b|] == b
  {
    var i := 0;
    while i < |b|
      invariant i <= |b|
      invariant Untouched(a, pos, pos + i)
      invariant forall k :: 0 <= k < i ==> a[pos + k] == b[k]
    {
      a[pos + i] := b[i];
      i := i + 1;
    }
  }

  // ---------------------------------------------------------------- integers in bytes

  /** The low byte of `v` shifted down by the factor `d`. */
  function Octet(v: int, d: int): byte
    requires v >= 0 && d > 0
  {
    var q: int := v / d;
    var r: int := q % 256;
    r
  }

  function Big16(v: nat): (s: seq<byte>)
    ensures |s| == 2
  {
    [Octet(v, 0x100), Octet(v, 1)]
  }

  function Big24(v: nat): (s: seq<byte>)
    ensures |s| == 3
  {
    [Octet(v, 0x10000), Octet(v, 0x100), Octet(v, 1)]
  }

  function Big32(v: nat): (s: seq<byte>)
    ensures |s| == 4
  {
    [Octet(v, 0x100_0000), Octet(v, 0x10000), Octet(v, 0x100), Octet(v, 1)]
  }

  function Little32(v: nat): (s: seq<byte>)
    ensures |s| == 4
  {
    [Octet(v, 1), Octet(v, 0x100), Octet(v, 0x10000), Octet(v, 0x100_0000)]
  }

  function FromBig24(s: seq<byte>): u32
    requires |s| >= 3
  {
    s[0] as int * 0x10000 + s[1] as int * 0x100 + s[2] as int
  }

  function FromBig32(s: seq<byte>): u32
    requires |s| >= 4
  {
    s[0] as int * 0x100_0000 + s[1] as int * 0x10000 + s[2] as int * 0x100 + s[3] as int
  }

  function FromLittle32(s: seq<byte>): u32
    requires |s| >= 4
  {
    s[3] as int * 0x100_0000 + s[2] as int * 0x10000 + s[1] as int * 0x100 + s[0] as int
  }

  lemma Octets(v: nat)
    requires v < U32
    ensures v == Octet(v, 0x100_0000) * 0x100_0000 + Octet(v, 0x10000) * 0x10000 + Octet(v, 0x100) * 0x100 + Octet(v, 1)
    ensures v < 0x100_0000 ==> Octet(v, 0x100_0000) == 0
  {
    var a: int, b: int, c: int := v / 0x100, v / 0x10000, v / 0x100_0000;
    assert b == a / 0x100 && c == b / 0x100;
  }

  lemma Big24RoundTrip(v: nat, rest: seq<byte>)
    requires v < 0x100_0000
    ensures FromBig24(Big24(v) + rest) == v
  {
    Octets(v);
  }

  lemma Big32RoundTrip(v: nat, rest: seq<byte>)
    requires v < U32
    ensures FromBig32(Big32(v) + rest) == v
  {
    Octets(v);
  }

  lemma Little32RoundTrip(v: nat, rest: seq<byte>)
    requires v < U32
    ensures FromLittle32(Little32(v) + rest) == v
  {
    Octets(v);
  }
}
