/**
  The block ciphers of rtmp_lib: Blowfish and XTEA for signatures (handshake.h), and the decoder of the
  corrected block TEA (rtmp.c).  What is a table there is a function of its index here, and any function.
 */
module Ciphers {
  import opened Common

  // ---------------------------------------------------------------- 32-bit words

  type Word = u32

  function Plus(a: Word, b: Word): Word {
    (a as int + b as int) % U32
  }

  function Minus(a: Word, b: Word): Word {
    (a as int - b as int) % U32
  }

  /** Exclusive or of the lowest `n` bits. */
  function XorBits(a: nat, b: nat, n: nat): nat {
    if n == 0 then 0 else (a + b) % 2 + 2 * XorBits(a / 2, b / 2, n - 1)
  }

  lemma {:induction false} XorBound(a: nat, b: nat, n: nat)
    ensures XorBits(a, b, n) < Power2(n)
    decreases n
  {
    if n > 0 {
      XorBound(a / 2, b / 2, n - 1);
    }
  }

  lemma Power32()
    ensures Power2(32) == U32
  {
    assert Power2(8) == 256;
    assert Power2(16) == 0x1_0000;
    assert Power2(24) == 0x100_0000;
  }

  function Xor(a: Word, b: Word): Word {
    XorBound(a, b, 32);
    Power32();
    XorBits(a, b, 32)
  }

  function Left(a: Word, n: nat): Word {
    Times(a, Power2(n)) % U32
  }

  function Times(a: nat, p: nat): nat {
    a * p
  }

  lemma {:induction false} TimesIsMore(p: nat, q: nat)
    requires p > 0
    ensures q <= Times(p, q)
    decreases p
  {
    if p > 1 {
      TimesIsMore(p - 1, q);
      assert p * q == (p - 1) * q + q;
    }
  }

  lemma NotLarger(a: nat, p: nat)
    requires p > 0
    ensures a / p <= a && a % p <= a
  {
    TimesIsMore(p, a / p);
    Division(a, p);
    hide Times;
  }

  lemma Division(a: nat, p: nat)
    requires p > 0
    ensures a / p >= 0 && a % p >= 0 && a == Times(p, a / p) + a % p
  {
  }

  function Right(a: Word, n: nat): Word {
    NotLarger(a, Power2(n));
    a as int / Power2(n)
  }

  /** The lowest `n` bits. */
  function Low(a: Word, n: nat): Word {
    NotLarger(a, Power2(n));
    a as int % Power2(n)
  }

  const ZERO: Word := 0
  const DELTA: Word := 0x9E37_79B9

  lemma XorStep(a: nat, b: nat, n: nat)
    requires n > 0
    ensures var x := XorBits(a, b, n); x / 2 == XorBits(a / 2, b / 2, n - 1) && x % 2 == (a + b) % 2
  {
  }

  lemma Parity(a: nat, b: nat, c: nat, x: nat, y: nat)
    requires x % 2 == (a + b) % 2 && y % 2 == (a + c) % 2
    ensures (x + b) % 2 == a % 2 && (x + c) % 2 == (y + b) % 2
  {
  }

  lemma {:induction false} XorBitsTwice(a: nat, b: nat, n: nat)
    requires a < Power2(n)
    ensures XorBits(XorBits(a, b, n), b, n) == a
    decreases n
  {
    if n > 0 {
      var x := XorBits(a, b, n);
      XorStep(a, b, n);
      XorBitsTwice(a / 2, b / 2, n - 1);
      Parity(a, b, b, x, x);
      XorUnfolds(x, b, n);
      hide XorBits;
    }
  }

  lemma XorUnfolds(a: nat, b: nat, n: nat)
    requires n > 0
    ensures XorBits(a, b, n) == (a + b) % 2 + 2 * XorBits(a / 2, b / 2, n - 1)
  {
  }

  lemma {:induction false} XorBitsSwap(a: nat, b: nat, c: nat, n: nat)
    ensures XorBits(XorBits(a, b, n), c, n) == XorBits(XorBits(a, c, n), b, n)
    decreases n
  {
    if n == 0 {
    } else {
      var x, y := XorBits(a, b, n), XorBits(a, c, n);
      XorStep(a, b, n);
      XorStep(a, c, n);
      XorUnfolds(x, c, n);
      XorUnfolds(y, b, n);
      Parity(a, b, c, x, y);
      XorBitsSwap(a / 2, b / 2, c / 2, n - 1);
      hide XorBits;
    }
  }

  lemma XorTwice(a: Word, b: Word)
    ensures Xor(Xor(a, b), b) == a
  {
    Power32();
    XorBitsTwice(a, b, 32);
  }

  lemma MinusBack(a: Word, b: Word)
    ensures Minus(Plus(a, b), b) == a
  {
  }

  // ---------------------------------------------------------------- Blowfish

  const BF_ROUNDS := 16

  /** The four substitution boxes. */
  datatype Boxes = Boxes(s0: Word -> Word, s1: Word -> Word, s2: Word -> Word, s3: Word -> Word)

  /** `BF_ENC` */
  function Mix(s: Boxes, x: Word): Word {
    Plus(Xor(Plus(s.s0(Right(x, 24)), s.s1(Low(Right(x, 16), 8))), s.s2(Low(Right(x, 8), 8))), s.s3(Low(x, 8)))
  }

  /** Both halves of a block. */
  datatype Pair = Pair(l: Word, r: Word)

  /** The halves after the first `i` rounds. */
  function Rounds(s: Boxes, p: seq<Word>, x: Pair, i: nat): Pair
    requires i <= |p|
  {
    if i == 0 then x else
    var y := Rounds(s, p, x, i - 1);
    var l := Xor(y.l, p[i - 1]);
    Pair(Xor(y.r, Mix(s, l)), l)
  }

  /** `bf_enc` with the 18 round keys `p`. */
  function Encrypt(s: Boxes, p: seq<Word>, x: Pair): Pair
    requires |p| == BF_ROUNDS + 2
  {
    var y := Rounds(s, p, x, BF_ROUNDS);
    Pair(Xor(y.r, p[BF_ROUNDS + 1]), Xor(y.l, p[BF_ROUNDS]))
  }

  /** `bf_enc`, in place. */
  method BfEnc(x: array<Word>, s: Boxes, p: seq<Word>)
    requires x.Length >= 2 && |p| == BF_ROUNDS + 2
    modifies x
    ensures Pair(x[0], x[1]) == Encrypt(s, p, Pair(old(x[0]), old(x[1])))
    ensures forall i :: 2 <= i < x.Length ==> x[i] == old(x[i])
  {
    hide Mix;
    hide Xor;
    var xl, xr, i := x[0], x[1], 0;
    while i < BF_ROUNDS
      invariant i <= BF_ROUNDS
      invariant Pair(xl, xr) == Rounds(s, p, Pair(x[0], x[1]), i)
    {
      xl := Xor(xl, p[i]);
      xr := Xor(xr, Mix(s, xl));
      var temp := xl;
      xl := xr;
      xr := temp;
      i := i + 1;
    }
    xl := Xor(xl, p[BF_ROUNDS]);
    xr := Xor(xr, p[BF_ROUNDS + 1]);
    x[0], x[1] := xr, xl;
  }

  /** One sequence of round keys is the other in reverse order. */
  predicate Reversed(p: seq<Word>, q: seq<Word>) {
    |p| == |q| && forall i :: 0 <= i < |p| ==> q[i] == p[|p| - 1 - i]
  }

  /** Round `j` with the round keys backwards stands where round `16 - j` stood. */
  lemma {:induction false} RoundsUndone(s: Boxes, p: seq<Word>, q: seq<Word>, x: Pair, j: nat)
    requires |p| == BF_ROUNDS + 2 && Reversed(p, q) && j <= BF_ROUNDS
    ensures var y := Rounds(s, p, x, BF_ROUNDS - j);
            Rounds(s, q, Encrypt(s, p, x), j) == Pair(Xor(y.r, p[BF_ROUNDS + 1 - j]), Xor(y.l, p[BF_ROUNDS - j]))
    decreases j
  {
    hide Mix;
    hide Xor;
    if j > 0 {
      var i := BF_ROUNDS - j;
      RoundsUndone(s, p, q, x, j - 1);
      var y, z := Rounds(s, p, x, i), Rounds(s, p, x, i + 1);
      assert q[j - 1] == p[i + 2];
      XorTwice(z.r, p[i + 2]);
      UndoRound(y.r, Mix(s, z.r), p[i + 1]);
    }
  }

  lemma UndoRound(r: Word, m: Word, p: Word)
    ensures Xor(Xor(Xor(r, m), p), m) == Xor(r, p)
  {
    XorBitsSwap(r, m, p, 32);
    hide Xor;
    XorTwice(Xor(r, p), m);
  }

  /** Blowfish is undone by itself with the round keys in reverse order, whatever the boxes and the keys. */
  lemma BlowfishUndone(s: Boxes, p: seq<Word>, q: seq<Word>, x: Pair)
    requires |p| == BF_ROUNDS + 2 && Reversed(p, q)
    ensures Encrypt(s, q, Encrypt(s, p, x)) == x
  {
    hide Mix;
    hide Xor;
    RoundsUndone(s, p, q, x, BF_ROUNDS);
    assert q[BF_ROUNDS] == p[1] && q[BF_ROUNDS + 1] == p[0];
    XorTwice(x.l, p[0]);
    XorTwice(x.r, p[1]);
  }

  // ---------------------------------------------------------------- XTEA

  const XTEA_ROUNDS := 32

  function Shuffle(v: Word): Word {
    Plus(Xor(Left(v, 4), Right(v, 5)), v)
  }

  function Sum(i: nat): Word {
    if i == 0 then ZERO else Plus(Sum(i - 1), DELTA)
  }

  /** The two additions of a round; the index of the key word depends on the sum alone. */
  function First(k: Word -> Word, v1: Word, sum: Word): Word {
    Xor(Shuffle(v1), Plus(sum, k(Low(sum, 2))))
  }

  function Second(k: Word -> Word, v0: Word, sum: Word): Word {
    Xor(Shuffle(v0), Plus(sum, k(Low(Right(sum, 11), 2))))
  }

  /** The block after `i` rounds of `rtmpe8_sig`. */
  function Xtea(k: Word -> Word, v: Pair, i: nat): Pair {
    if i == 0 then v else
    var w := Xtea(k, v, i - 1);
    var l := Plus(w.l, First(k, w.r, Sum(i - 1)));
    Pair(l, Plus(w.r, Second(k, l, Sum(i))))
  }

  /** Rounds `i` down to 1 taken back. */
  function XteaBack(k: Word -> Word, v: Pair, i: nat): Pair
    decreases i
  {
    if i == 0 then v else
    var r := Minus(v.r, Second(k, v.l, Sum(i)));
    XteaBack(k, Pair(Minus(v.l, First(k, r, Sum(i - 1))), r), i - 1)
  }

  /** XTEA is undone by the rounds backwards, for every key and block. */
  lemma {:induction false} XteaUndone(k: Word -> Word, v: Pair, i: nat)
    ensures XteaBack(k, Xtea(k, v, i), i) == v
    decreases i
  {
    hide First;
    hide Second;
    hide Plus;
    hide Minus;
    hide Sum;
    if i > 0 {
      var w := Xtea(k, v, i - 1);
      var l := Plus(w.l, First(k, w.r, Sum(i - 1)));
      MinusBack(w.r, Second(k, l, Sum(i)));
      MinusBack(w.l, First(k, w.r, Sum(i - 1)));
      XteaUndone(k, v, i - 1);
    }
  }

  /** A word from four bytes, lowest first. */
  function WordAt(b: seq<byte>, at: nat): Word
    requires at + 4 <= |b|
  {
    FromLittle32(b[at..])
  }

  lemma WordReads(w: Word, b: seq<byte>, at: nat)
    requires at + 4 <= |b| && b[at..at + 4] == Little32(w)
    ensures WordAt(b, at) == w
  {
    hide FromLittle32;
    assert b[at..] == Little32(w) + b[at + 4..];
    Little32RoundTrip(w, b[at + 4..]);
  }

  /** `rtmpe8_sig` */
  method Rtmpe8Sig(input: seq<byte>, output: array<byte>, k: Word -> Word)
    requires |input| >= 8 && output.Length >= 8
    modifies output
    ensures Pair(WordAt(output[..], 0), WordAt(output[..], 4))
         == Xtea(k, Pair(WordAt(input, 0), WordAt(input, 4)), XTEA_ROUNDS)
  {
    hide First;
    hide Second;
    hide Plus;
    hide WordAt;
    hide Little32;
    var v0, v1, sum, i := WordAt(input, 0), WordAt(input, 4), ZERO, 0;
    while i < XTEA_ROUNDS
      invariant i <= XTEA_ROUNDS && sum == Sum(i)
      invariant Pair(v0, v1) == Xtea(k, Pair(WordAt(input, 0), WordAt(input, 4)), i)
    {
      v0 := Plus(v0, First(k, v1, sum));
      sum := Plus(sum, DELTA);
      v1 := Plus(v1, Second(k, v0, sum));
      i := i + 1;
    }
    Copy(output, 0, Little32(v0));
    ghost var first := output[..][0..4];
    Copy(output, 4, Little32(v1));
    assert output[..][0..4] == first;
    WordReads(v0, output[..], 0);
    WordReads(v1, output[..], 4);
  }

  // ---------------------------------------------------------------- corrected block TEA

  /** The key word for an index and the two bits of the sum. */
  type Key = (nat, Word) -> Word

  /** `MX` */
  function Mx(k: Key, z: Word, y: Word, sum: Word, p: nat): Word {
    Xor(Plus(Xor(Right(z, 5), Left(y, 2)), Xor(Right(y, 3), Left(z, 4))),
        Plus(Xor(sum, y), Xor(k(p, Low(Right(sum, 2), 2)), z)))
  }

  /** What is added to word `p`, from its two neighbours around the block. */
  function Added(k: Key, v: seq<Word>, sum: Word, p: nat): Word
    requires p < |v|
  {
    Mx(k, v[if p == 0 then |v| - 1 else p - 1], v[if p == |v| - 1 then 0 else p + 1], sum, p)
  }

  /** Words 0 to `p` - 1 of a round of encryption. */
  function Encrypted(k: Key, v: seq<Word>, sum: Word, p: nat): (r: seq<Word>)
    requires p <= |v|
    ensures |r| == |v|
    decreases p
  {
    if p == 0 then v else
    var w := Encrypted(k, v, sum, p - 1);
    w[p - 1 := Plus(w[p - 1], Added(k, w, sum, p - 1))]
  }

  /** Words `p` - 1 to 0 of a round of decryption. */
  function Decrypted(k: Key, v: seq<Word>, sum: Word, p: nat): (r: seq<Word>)
    requires p <= |v|
    ensures |r| == |v|
    decreases p
  {
    if p == 0 then v
    else Decrypted(k, v[p - 1 := Minus(v[p - 1], Added(k, v, sum, p - 1))], sum, p - 1)
  }

  /** The words of a round are taken back one by one: the neighbours of a word are as they were. */
  lemma {:induction false} RoundUndone(k: Key, v: seq<Word>, sum: Word, p: nat)
    requires p <= |v| && |v| >= 2
    ensures Decrypted(k, Encrypted(k, v, sum, p), sum, p) == v
    decreases p
  {
    hide Mx;
    hide Plus;
    hide Minus;
    if p > 0 {
      var w, x := Encrypted(k, v, sum, p - 1), Encrypted(k, v, sum, p);
      assert Added(k, x, sum, p - 1) == Added(k, w, sum, p - 1);
      MinusBack(w[p - 1], Added(k, w, sum, p - 1));
      assert x[p - 1 := Minus(x[p - 1], Added(k, x, sum, p - 1))] == w;
      RoundUndone(k, v, sum, p - 1);
    }
  }

  /** `i` rounds of encryption, with the sums up to `i` times `DELTA`. */
  function EncryptRounds(k: Key, v: seq<Word>, i: nat): (r: seq<Word>)
    ensures |r| == |v|
    decreases i
  {
    if i == 0 then v else
    var w := EncryptRounds(k, v, i - 1);
    Encrypted(k, w, Sum(i), |w|)
  }

  /** Rounds of decryption with the sums from `i` times `DELTA` down. */
  function DecryptRounds(k: Key, v: seq<Word>, i: nat): (r: seq<Word>)
    ensures |r| == |v|
    decreases i
  {
    if i == 0 then v else DecryptRounds(k, Decrypted(k, v, Sum(i), |v|), i - 1)
  }

  /** How many rounds a block of `n` words has. */
  function Q(n: nat): nat
    requires n > 0
  {
    6 + 52 / n
  }

  /** Decoding inverts the encryption, for every key and every block of two words or more. */
  lemma {:induction false} BlockUndone(k: Key, v: seq<Word>, i: nat)
    requires |v| >= 2
    ensures DecryptRounds(k, EncryptRounds(k, v, i), i) == v
    decreases i
  {
    hide Encrypted;
    hide Decrypted;
    hide Sum;
    if i > 0 {
      var w := EncryptRounds(k, v, i - 1);
      RoundUndone(k, w, Sum(i), |w|);
      BlockUndone(k, v, i - 1);
    }
  }

  // ---------------------------------------------------------------- the loops of the decoder

  lemma PlusAfter(x: nat, y: nat)
    ensures (x % U32 + y) % U32 == (x + y) % U32
  {
  }

  lemma {:induction false} SumIsProduct(j: nat)
    ensures Sum(j) == (j * DELTA as int) % U32
    decreases j
  {
    if j > 0 {
      SumIsProduct(j - 1);
      PlusAfter((j - 1) * DELTA as int, DELTA);
      assert (j - 1) * DELTA as int + DELTA as int == j * DELTA as int;
    }
  }

  lemma OddProduct(a: nat, b: nat)
    ensures (2 * a + 1) * (2 * b + 1) == 2 * (2 * a * b + a + b) + 1
  {
  }

  lemma HalfProduct(j: nat, d: nat, m: nat)
    requires d % 2 == 1 && j * d == 2 * m
    ensures j % 2 == 0 && (j / 2) * d == m
  {
    if j % 2 == 1 {
      OddProduct(j / 2, d / 2);
      assert false;
    }
    Doubled(j / 2, d);
  }

  lemma Doubled(a: nat, d: nat)
    ensures (2 * a) * d == 2 * (a * d)
  {
  }

  /** A product with an odd factor is a multiple of a power of 2 only if the other factor is. */
  lemma {:induction false} OddKeepsPower(j: nat, d: nat, n: nat, t: nat) returns (u: nat)
    requires d % 2 == 1 && j * d == Times(Power2(n), t)
    ensures j == Times(Power2(n), u)
    decreases n
  {
    if n == 0 {
      return j;
    }
    var half := Power2(n - 1);
    Doubled(half, t);
    HalfProduct(j, d, Times(half, t));
    u := OddKeepsPower(j / 2, d, n - 1, t);
    Doubled(half, u);
  }

  /** The sum is 0 for no smaller number of rounds: `DELTA` is odd. */
  lemma SumIsNotZero(j: nat)
    requires 0 < j < U32
    ensures Sum(j) != ZERO
  {
    SumIsProduct(j);
    Power32();
    if Sum(j) == ZERO {
      var u := OddKeepsPower(j, DELTA, 32, j * DELTA as int / U32);
      assert false;
    }
  }

  lemma SumNext(i: nat)
    requires i > 0
    ensures Minus(Sum(i), DELTA) == Sum(i - 1)
  {
    MinusBack(Sum(i - 1), DELTA);
  }

  /** The loops of `DecodeTEA` over a block of words: they decode it, in exactly `Q` rounds. */
  method DecodeBlock(v: array<Word>, k: Key) returns (rounds: nat)
    requires v.Length >= 2
    modifies v
    ensures v[..] == DecryptRounds(k, old(v[..]), Q(v.Length)) && rounds == Q(v.Length)
  {
    hide Sum;
    hide Decrypted;
    hide Minus;
    var n := v.Length;
    var q := 6 + 52 / n;
    var sum := StartSum(q);
    rounds := 0;
    while sum != ZERO
      invariant rounds <= q && sum == Sum(q - rounds)
      invariant DecryptRounds(k, v[..], q - rounds) == DecryptRounds(k, old(v[..]), q)
      decreases q - rounds
    {
      SumZero();
      SumNext(q - rounds);
      DecodeRound(v, k, sum);
      sum := Minus(sum, DELTA);
      rounds := rounds + 1;
    }
    if rounds < q {
      SumIsNotZero(q - rounds);
    }
  }

  /** One round, from the last word down; `y` is the word above, and `z` the word below. */
  method DecodeRound(v: array<Word>, k: Key, sum: Word)
    requires v.Length >= 2
    modifies v
    ensures v[..] == Decrypted(k, old(v[..]), sum, v.Length)
  {
    hide Mx;
    hide Minus;
    var n := v.Length;
    var y, z, p := v[0], v[n - 1], n - 1;
    while p > 0
      invariant 0 <= p < n && y == v[if p == n - 1 then 0 else p + 1]
      invariant Decrypted(k, v[..], sum, p + 1) == Decrypted(k, old(v[..]), sum, n)
    {
      ghost var w := v[..];
      z := v[p - 1];
      v[p] := Minus(v[p], Mx(k, z, y, sum, p));
      y := v[p];
      assert v[..] == w[p := Minus(w[p], Added(k, w, sum, p))];
      p := p - 1;
    }
    ghost var w := v[..];
    z := v[n - 1];
    v[0] := Minus(v[0], Mx(k, z, y, sum, 0));
    y := v[0];
    assert v[..] == w[0 := Minus(w[0], Added(k, w, sum, 0))];
  }

  /** `q * DELTA` in 32 bits. */
  method StartSum(q: nat) returns (sum: Word)
    ensures sum == Sum(q)
  {
    hide Plus;
    sum := ZERO;
    var i := 0;
    while i < q
      invariant i <= q && sum == Sum(i)
    {
      sum := Plus(sum, DELTA);
      i := i + 1;
    }
  }

  lemma SumZero()
    ensures Sum(0) == ZERO
  {
  }
}
