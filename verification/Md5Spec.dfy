/** MD5 as RFC 1321 defines it: 32-bit words, the message padded as a whole, one block after the other. */
module Md5Spec {
  type Byte8 = bv8
  type Bytes = seq<Byte8>

  /** A word of 32 bits, kept in the low half. */
  type Word = bv64

  const BLOCK := 64

  /** The four words of the state. */
  datatype Hash = Hash(a: Word, b: Word, c: Word, d: Word)

  // ---- section 3.4: one block ----

  /** Everything is modulo 2^32. */
  function Low(x: Word): Word { x & 0xffff_ffff }

  function Plus(x: Word, y: Word): Word { x + y }

  function Add(x: Word, y: Word): Word { Low(Plus(x, y)) }

  function F(x: Word, y: Word, z: Word): Word { Low((x & y) | (!x & z)) }

  function G(x: Word, y: Word, z: Word): Word { Low((x & z) | (y & !z)) }

  function H(x: Word, y: Word, z: Word): Word { Low(x ^ y ^ z) }

  function I(x: Word, y: Word, z: Word): Word { Low(y ^ (x | !z)) }

  function Turned(x: Word, s: bv6): Word
    requires 0 < s < 32
  {
    (x << s) | (x >> (32 - s))
  }

  function Rotated(x: Word, s: bv6): Word
    requires 0 < s < 32
  {
    Low(Turned(x, s))
  }

  /** The function of step `i`. */
  function Mix(i: nat, x: Word, y: Word, z: Word): Word {
    if i < 16 then F(x, y, z) else if i < 32 then G(x, y, z) else if i < 48 then H(x, y, z) else I(x, y, z)
  }

  /** The word that step `i` takes. */
  function Index(i: nat): (k: nat)
    ensures k < 16
  {
    if i < 16 then i % 16 else if i < 32 then (5 * i + 1) % 16 else if i < 48 then (3 * i + 5) % 16 else 7 * i % 16
  }

  /** How far step `i` rotates. */
  function Turn(i: nat): (s: bv6)
    ensures 0 < s < 32
  {
    var j := i % 4;
    if i < 16 then (if j == 0 then 7 else if j == 1 then 12 else if j == 2 then 17 else 22)
    else if i < 32 then (if j == 0 then 5 else if j == 1 then 9 else if j == 2 then 14 else 20)
    else if i < 48 then (if j == 0 then 4 else if j == 1 then 11 else if j == 2 then 16 else 23)
    else (if j == 0 then 6 else if j == 1 then 10 else if j == 2 then 15 else 21)
  }

  function Pick(i: nat, w: Word, x: Word, y: Word, z: Word): Word {
    if i % 4 == 0 then w else if i % 4 == 1 then x else if i % 4 == 2 then y else z
  }

  function Sine1(i: nat): Word {
    if i < 4 then Pick(i, 0xd76aa478, 0xe8c7b756, 0x242070db, 0xc1bdceee)
    else if i < 8 then Pick(i, 0xf57c0faf, 0x4787c62a, 0xa8304613, 0xfd469501)
    else if i < 12 then Pick(i, 0x698098d8, 0x8b44f7af, 0xffff5bb1, 0x895cd7be)
    else Pick(i, 0x6b901122, 0xfd987193, 0xa679438e, 0x49b40821)
  }

  function Sine2(i: nat): Word {
    if i < 20 then Pick(i, 0xf61e2562, 0xc040b340, 0x265e5a51, 0xe9b6c7aa)
    else if i < 24 then Pick(i, 0xd62f105d, 0x02441453, 0xd8a1e681, 0xe7d3fbc8)
    else if i < 28 then Pick(i, 0x21e1cde6, 0xc33707d6, 0xf4d50d87, 0x455a14ed)
    else Pick(i, 0xa9e3e905, 0xfcefa3f8, 0x676f02d9, 0x8d2a4c8a)
  }

  function Sine3(i: nat): Word {
    if i < 36 then Pick(i, 0xfffa3942, 0x8771f681, 0x6d9d6122, 0xfde5380c)
    else if i < 40 then Pick(i, 0xa4beea44, 0x4bdecfa9, 0xf6bb4b60, 0xbebfbc70)
    else if i < 44 then Pick(i, 0x289b7ec6, 0xeaa127fa, 0xd4ef3085, 0x04881d05)
    else Pick(i, 0xd9d4d039, 0xe6db99e5, 0x1fa27cf8, 0xc4ac5665)
  }

  function Sine4(i: nat): Word {
    if i < 52 then Pick(i, 0xf4292244, 0x432aff97, 0xab9423a7, 0xfc93a039)
    else if i < 56 then Pick(i, 0x655b59c3, 0x8f0ccc92, 0xffeff47d, 0x85845dd1)
    else if i < 60 then Pick(i, 0x6fa87e4f, 0xfe2ce6e0, 0xa3014314, 0x4e0811a1)
    else Pick(i, 0xf7537e82, 0xbd3af235, 0x2ad7d2bb, 0xeb86d391)
  }

  /** The table of sines. */
  function Sine(i: nat): Word {
    if i < 16 then Sine1(i) else if i < 32 then Sine2(i) else if i < 48 then Sine3(i) else Sine4(i)
  }

  /** One step; afterwards the words have moved on by one place. */
  function Step(h: Hash, i: nat, x: Word): Hash {
    Hash(h.d, Add(Rotated(Add(h.a, Add(Add(Mix(i, h.b, h.c, h.d), x), Sine(i))), Turn(i)), h.b), h.b, h.c)
  }

  /** A word of a block, low byte first. */
  function Input(block: Bytes, k: nat): Word
    requires |block| == BLOCK && k < 16
  {
    Join(block[4 * k], block[4 * k + 1], block[4 * k + 2], block[4 * k + 3])
  }

  function Join(p: bv8, q: bv8, r: bv8, s: bv8): Word {
    (p as Word) | ((q as Word) << 8) | ((r as Word) << 16) | ((s as Word) << 24)
  }

  /** The state after `i` steps. */
  function Steps(h: Hash, block: Bytes, i: nat): Hash
    requires |block| == BLOCK
    decreases i
  {
    if i == 0 then h else Step(Steps(h, block, i - 1), i - 1, Input(block, Index(i - 1)))
  }

  function Compress(h: Hash, block: Bytes): Hash
    requires |block| == BLOCK
  {
    var r := Steps(h, block, 64);
    Hash(Add(h.a, r.a), Add(h.b, r.b), Add(h.c, r.c), Add(h.d, r.d))
  }

  /** All whole blocks of `m`. */
  function Blocks(h: Hash, m: Bytes): Hash
    decreases |m|
  {
    if |m| < BLOCK then h else Blocks(Compress(h, m[..BLOCK]), m[BLOCK..])
  }

  lemma {:induction false} BlocksJoin(h: Hash, x: Bytes, y: Bytes)
    requires |x| % BLOCK == 0
    ensures Blocks(h, x + y) == Blocks(Blocks(h, x), y)
    decreases |x|
  {
    hide Compress;
    if |x| < BLOCK {
      assert x + y == y;
    } else {
      assert (x + y)[..BLOCK] == x[..BLOCK] && (x + y)[BLOCK..] == x[BLOCK..] + y;
      BlocksJoin(Compress(h, x[..BLOCK]), x[BLOCK..], y);
    }
  }

  lemma BlocksShort(h: Hash, x: Bytes)
    requires |x| < BLOCK
    ensures Blocks(h, x) == h
  {
  }

  // ---- sections 3.1 to 3.5: the whole message ----

  function Zeros(n: nat): (z: Bytes)
    ensures |z| == n && forall i :: 0 <= i < n ==> z[i] == 0
  {
    seq(n, _ => 0)
  }

  /** A byte of a number. */
  function ToByte(x: nat): Byte8 { (x % 0x100) as bv8 }

  /** The length in bits as 64 bits, low byte first; of a longer message the low 64 bits. */
  function LengthField(n: nat): (z: Bytes)
    ensures |z| == 8
  {
    var x := 8 * n;
    [ToByte(x), ToByte(x / 0x100), ToByte(x / 0x1_0000), ToByte(x / 0x100_0000),
     ToByte(x / 0x1_0000_0000), ToByte(x / 0x100_0000_0000), ToByte(x / 0x1_0000_0000_0000),
     ToByte(x / 0x100_0000_0000_0000)]
  }

  /** How many zero bytes bring the message to 8 bytes short of a whole block. */
  function Gap(n: nat): (k: nat)
    ensures k < BLOCK && (n + 1 + k + 8) % BLOCK == 0
  {
    (119 - n % BLOCK) % BLOCK
  }

  function Padded(m: Bytes): (p: Bytes)
    ensures |p| % BLOCK == 0
  {
    m + [0x80] + Zeros(Gap(|m|)) + LengthField(|m|)
  }

  function IV(): Hash { Hash(0x67452301, 0xefcdab89, 0x98badcfe, 0x10325476) }

  function Bytes4(x: Word): (z: Bytes)
    ensures |z| == 4
  {
    [(x & 0xff) as bv8, ((x >> 8) & 0xff) as bv8, ((x >> 16) & 0xff) as bv8, ((x >> 24) & 0xff) as bv8]
  }

  function Output(h: Hash): (z: Bytes)
    ensures |z| == 16
  {
    Bytes4(h.a) + Bytes4(h.b) + Bytes4(h.c) + Bytes4(h.d)
  }

  function Digest(m: Bytes): Bytes { Output(Blocks(IV(), Padded(m))) }
}
