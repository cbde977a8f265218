/** The MD5 code: words of 64 bits of which only the low 32 count, and a context that takes a message in
    pieces of any size. */
module Md5 {
  import opened Md5Spec

  // ---- wide words ----

  function WideF(x: bv64, y: bv64, z: bv64): bv64 { z ^ (x & (y ^ z)) }

  function WideG(x: bv64, y: bv64, z: bv64): bv64 { y ^ (z & (x ^ y)) }

  function WideH(x: bv64, y: bv64, z: bv64): bv64 { x ^ y ^ z }

  function WideI(x: bv64, y: bv64, z: bv64): bv64 { y ^ (x | !z) }

  function WideMix(i: nat, x: bv64, y: bv64, z: bv64): bv64 {
    if i < 16 then WideF(x, y, z) else if i < 32 then WideG(x, y, z) else if i < 48 then WideH(x, y, z)
    else WideI(x, y, z)
  }

  lemma FLow(x: bv64, y: bv64, z: bv64)
    ensures Low(WideF(x, y, z)) == F(Low(x), Low(y), Low(z))
  {
  }

  lemma GLow(x: bv64, y: bv64, z: bv64)
    ensures Low(WideG(x, y, z)) == G(Low(x), Low(y), Low(z))
  {
  }

  lemma HLow(x: bv64, y: bv64, z: bv64)
    ensures Low(WideH(x, y, z)) == H(Low(x), Low(y), Low(z))
  {
  }

  lemma ILow(x: bv64, y: bv64, z: bv64)
    ensures Low(WideI(x, y, z)) == I(Low(x), Low(y), Low(z))
  {
  }

  /** The optimised functions agree with the definition on the low half. */
  lemma MixLow(i: nat, x: bv64, y: bv64, z: bv64)
    ensures Low(WideMix(i, x, y, z)) == Mix(i, Low(x), Low(y), Low(z))
  {
    hide Low, F, G, H, I, WideF, WideG, WideH, WideI;
    FLow(x, y, z);
    GLow(x, y, z);
    HLow(x, y, z);
    ILow(x, y, z);
  }

  lemma LowIs(x: bv64)
    ensures Low(x) == x & 0xffff_ffff
  {
  }

  // Facts about bit vectors are stated over the operations themselves, which the solver simplifies at once;
  // what the functions stand for comes in by equality alone.

  /** What the high halves add never reaches the low half. */
  lemma Carries(x: bv64, y: bv64)
    ensures Low((x & 0xffff_ffff) + (y & 0xffff_ffff)) == Low(x + y)
  {
  }

  lemma SumIs(x: bv64, y: bv64)
    ensures Low(Plus(x, y)) == Low(x + y)
    ensures Low(Plus(x & 0xffff_ffff, y & 0xffff_ffff)) == Low((x & 0xffff_ffff) + (y & 0xffff_ffff))
  {
    hide Low;
  }

  lemma MaskedSum(x: bv64, y: bv64)
    ensures Low(Plus(x & 0xffff_ffff, y & 0xffff_ffff)) == Low(Plus(x, y))
  {
    hide Low, Plus;
    Carries(x, y);
    SumIs(x, y);
  }

  lemma PlusLow(x: bv64, y: bv64)
    ensures Low(Plus(x, y)) == Add(Low(x), Low(y))
  {
    hide Low, Plus;
    LowIs(x);
    LowIs(y);
    MaskedSum(x, y);
  }

  /** Rotation as the code does it: what leaves the low half at the top comes back in at the bottom. */
  function WideRotated(x: bv64, s: bv6): bv64
    requires 0 < s < 32
  {
    (x << s) | ((x & 0xffff_ffff) >> (32 - s))
  }

  lemma Turns(x: bv64, s: bv6)
    requires 0 < s < 32
    ensures Low((x << s) | ((x & 0xffff_ffff) >> (32 - s))) ==
            Low(((x & 0xffff_ffff) << s) | ((x & 0xffff_ffff) >> (32 - s)))
  {
  }

  lemma WideRotatedIs(x: bv64, s: bv6)
    requires 0 < s < 32
    ensures Low(WideRotated(x, s)) == Low((x << s) | ((x & 0xffff_ffff) >> (32 - s)))
  {
    hide Low;
  }

  lemma RotatedIs(x: bv64, s: bv6)
    requires 0 < s < 32
    ensures Rotated(x & 0xffff_ffff, s) == Low(((x & 0xffff_ffff) << s) | ((x & 0xffff_ffff) >> (32 - s)))
  {
    hide Low;
  }

  lemma MaskedTurn(x: bv64, s: bv6)
    requires 0 < s < 32
    ensures Low(WideRotated(x, s)) == Rotated(x & 0xffff_ffff, s)
  {
    hide Low, WideRotated, Rotated;
    WideRotatedIs(x, s);
    Turns(x, s);
    RotatedIs(x, s);
  }

  lemma RotatedLow(x: bv64, s: bv6)
    requires 0 < s < 32
    ensures Low(WideRotated(x, s)) == Rotated(Low(x), s)
  {
    hide Low, WideRotated, Rotated;
    MaskedTurn(x, s);
    LowIs(x);
  }

  /** A step of the code, STEP. */
  function WideStep(a: bv64, b: bv64, f: bv64, x: bv64, t: bv64, s: bv6): bv64
    requires 0 < s < 32
  {
    Plus(WideRotated(Plus(a, Plus(Plus(f, x), t)), s), b)
  }

  /** Of a step on wide words the low half is the step as defined on 32-bit words. */
  lemma StepLow(i: nat, a: bv64, b: bv64, c: bv64, d: bv64, x: bv64, t: bv64)
    requires Low(t) == Sine(i)
    ensures Hash(Low(d), Low(WideStep(a, b, WideMix(i, b, c, d), x, t, Turn(i))), Low(b), Low(c)) ==
            Md5Spec.Step(Hash(Low(a), Low(b), Low(c), Low(d)), i, Low(x))
  {
    hide Low, Plus, Add, Rotated, WideRotated, Mix, WideMix, Sine, Turn;
    var f, s := WideMix(i, b, c, d), Turn(i);
    MixLow(i, b, c, d);
    PlusLow(f, x);
    PlusLow(Plus(f, x), t);
    PlusLow(a, Plus(Plus(f, x), t));
    RotatedLow(Plus(a, Plus(Plus(f, x), t)), s);
    PlusLow(WideRotated(Plus(a, Plus(Plus(f, x), t)), s), b);
  }

  // ---- one block ----

  /** What the definition says of step `i`: the word it takes, the constant and the rotation. */
  ghost predicate Row(i: nat, k: nat, t: bv64, s: bv6) { i < 64 && k == Index(i) && Low(t) == Sine(i) && s == Turn(i) }

  /** STEP number `i`. */
  method Step(ghost i: nat, f: bv64, a: bv64, b: bv64, c: bv64, d: bv64, w: seq<bv64>, k: nat, t: bv64, s: bv6,
      ghost h: Hash, ghost block: Bytes)
    returns (r: bv64)
    requires Loaded(w, block) && Row(i, k, t, s) && f == WideMix(i, b, c, d)
    requires Steps(h, block, i) == Hash(Low(a), Low(b), Low(c), Low(d))
    ensures Steps(h, block, i + 1) == Hash(Low(d), Low(r), Low(b), Low(c))
  {
    hide Low, WideMix, Sine, Turn, Input, Index, Md5Spec.Step, Plus, WideRotated;
    StepLow(i, a, b, c, d, w[k], t);
    r := Plus(WideRotated(Plus(a, Plus(Plus(f, w[k]), t)), s), b);
  }

  /** The words of a block, as the code has read them. */
  ghost predicate Loaded(w: seq<bv64>, block: Bytes) {
    |w| == 16 && |block| == BLOCK && forall k :: 0 <= k < 16 ==> Low(w[k]) == Input(block, k)
  }

  lemma Rows1()
    ensures Row(0, 0, 0xd76aa478, 7) && Row(1, 1, 0xe8c7b756, 12)
    ensures Row(2, 2, 0x242070db, 17) && Row(3, 3, 0xc1bdceee, 22)
    ensures Row(4, 4, 0xf57c0faf, 7) && Row(5, 5, 0x4787c62a, 12)
    ensures Row(6, 6, 0xa8304613, 17) && Row(7, 7, 0xfd469501, 22)
    ensures Row(8, 8, 0x698098d8, 7) && Row(9, 9, 0x8b44f7af, 12)
    ensures Row(10, 10, 0xffff5bb1, 17) && Row(11, 11, 0x895cd7be, 22)
    ensures Row(12, 12, 0x6b901122, 7) && Row(13, 13, 0xfd987193, 12)
    ensures Row(14, 14, 0xa679438e, 17) && Row(15, 15, 0x49b40821, 22)
  {
    hide Sine2, Sine3, Sine4;
  }

  method Round1Begins(a0: bv64, b0: bv64, c0: bv64, d0: bv64, w: seq<bv64>, ghost h: Hash, ghost block: Bytes)
    returns (a: bv64, b: bv64, c: bv64, d: bv64)
    requires Loaded(w, block) && Steps(h, block, 0) == Hash(Low(a0), Low(b0), Low(c0), Low(d0))
    ensures Steps(h, block, 8) == Hash(Low(a), Low(b), Low(c), Low(d))
  {
    hide Steps, Loaded, Row, Low, WideF, WideG, WideH, WideI;
    Rows1();
    a, b, c, d := a0, b0, c0, d0;
    a := Step(0, WideF(b, c, d), a, b, c, d, w, 0, 0xd76aa478, 7, h, block);
    d := Step(1, WideF(a, b, c), d, a, b, c, w, 1, 0xe8c7b756, 12, h, block);
    c := Step(2, WideF(d, a, b), c, d, a, b, w, 2, 0x242070db, 17, h, block);
    b := Step(3, WideF(c, d, a), b, c, d, a, w, 3, 0xc1bdceee, 22, h, block);
    a := Step(4, WideF(b, c, d), a, b, c, d, w, 4, 0xf57c0faf, 7, h, block);
    d := Step(5, WideF(a, b, c), d, a, b, c, w, 5, 0x4787c62a, 12, h, block);
    c := Step(6, WideF(d, a, b), c, d, a, b, w, 6, 0xa8304613, 17, h, block);
    b := Step(7, WideF(c, d, a), b, c, d, a, w, 7, 0xfd469501, 22, h, block);
  }

  method Round1Ends(a0: bv64, b0: bv64, c0: bv64, d0: bv64, w: seq<bv64>, ghost h: Hash, ghost block: Bytes)
    returns (a: bv64, b: bv64, c: bv64, d: bv64)
    requires Loaded(w, block) && Steps(h, block, 8) == Hash(Low(a0), Low(b0), Low(c0), Low(d0))
    ensures Steps(h, block, 16) == Hash(Low(a), Low(b), Low(c), Low(d))
  {
    hide Steps, Loaded, Row, Low, WideF, WideG, WideH, WideI;
    Rows1();
    a, b, c, d := a0, b0, c0, d0;
    a := Step(8, WideF(b, c, d), a, b, c, d, w, 8, 0x698098d8, 7, h, block);
    d := Step(9, WideF(a, b, c), d, a, b, c, w, 9, 0x8b44f7af, 12, h, block);
    c := Step(10, WideF(d, a, b), c, d, a, b, w, 10, 0xffff5bb1, 17, h, block);
    b := Step(11, WideF(c, d, a), b, c, d, a, w, 11, 0x895cd7be, 22, h, block);
    a := Step(12, WideF(b, c, d), a, b, c, d, w, 12, 0x6b901122, 7, h, block);
    d := Step(13, WideF(a, b, c), d, a, b, c, w, 13, 0xfd987193, 12, h, block);
    c := Step(14, WideF(d, a, b), c, d, a, b, w, 14, 0xa679438e, 17, h, block);
    b := Step(15, WideF(c, d, a), b, c, d, a, w, 15, 0x49b40821, 22, h, block);
  }

  lemma Rows2()
    ensures Row(16, 1, 0xf61e2562, 5) && Row(17, 6, 0xc040b340, 9)
    ensures Row(18, 11, 0x265e5a51, 14) && Row(19, 0, 0xe9b6c7aa, 20)
    ensures Row(20, 5, 0xd62f105d, 5) && Row(21, 10, 0x02441453, 9)
    ensures Row(22, 15, 0xd8a1e681, 14) && Row(23, 4, 0xe7d3fbc8, 20)
    ensures Row(24, 9, 0x21e1cde6, 5) && Row(25, 14, 0xc33707d6, 9)
    ensures Row(26, 3, 0xf4d50d87, 14) && Row(27, 8, 0x455a14ed, 20)
    ensures Row(28, 13, 0xa9e3e905, 5) && Row(29, 2, 0xfcefa3f8, 9)
    ensures Row(30, 7, 0x676f02d9, 14) && Row(31, 12, 0x8d2a4c8a, 20)
  {
    hide Sine1, Sine3, Sine4;
  }

  method Round2Begins(a0: bv64, b0: bv64, c0: bv64, d0: bv64, w: seq<bv64>, ghost h: Hash, ghost block: Bytes)
    returns (a: bv64, b: bv64, c: bv64, d: bv64)
    requires Loaded(w, block) && Steps(h, block, 16) == Hash(Low(a0), Low(b0), Low(c0), Low(d0))
    ensures Steps(h, block, 24) == Hash(Low(a), Low(b), Low(c), Low(d))
  {
    hide Steps, Loaded, Row, Low, WideF, WideG, WideH, WideI;
    Rows2();
    a, b, c, d := a0, b0, c0, d0;
    a := Step(16, WideG(b, c, d), a, b, c, d, w, 1, 0xf61e2562, 5, h, block);
    d := Step(17, WideG(a, b, c), d, a, b, c, w, 6, 0xc040b340, 9, h, block);
    c := Step(18, WideG(d, a, b), c, d, a, b, w, 11, 0x265e5a51, 14, h, block);
    b := Step(19, WideG(c, d, a), b, c, d, a, w, 0, 0xe9b6c7aa, 20, h, block);
    a := Step(20, WideG(b, c, d), a, b, c, d, w, 5, 0xd62f105d, 5, h, block);
    d := Step(21, WideG(a, b, c), d, a, b, c, w, 10, 0x02441453, 9, h, block);
    c := Step(22, WideG(d, a, b), c, d, a, b, w, 15, 0xd8a1e681, 14, h, block);
    b := Step(23, WideG(c, d, a), b, c, d, a, w, 4, 0xe7d3fbc8, 20, h, block);
  }

  method Round2Ends(a0: bv64, b0: bv64, c0: bv64, d0: bv64, w: seq<bv64>, ghost h: Hash, ghost block: Bytes)
    returns (a: bv64, b: bv64, c: bv64, d: bv64)
    requires Loaded(w, block) && Steps(h, block, 24) == Hash(Low(a0), Low(b0), Low(c0), Low(d0))
    ensures Steps(h, block, 32) == Hash(Low(a), Low(b), Low(c), Low(d))
  {
    hide Steps, Loaded, Row, Low, WideF, WideG, WideH, WideI;
    Rows2();
    a, b, c, d := a0, b0, c0, d0;
    a := Step(24, WideG(b, c, d), a, b, c, d, w, 9, 0x21e1cde6, 5, h, block);
    d := Step(25, WideG(a, b, c), d, a, b, c, w, 14, 0xc33707d6, 9, h, block);
    c := Step(26, WideG(d, a, b), c, d, a, b, w, 3, 0xf4d50d87, 14, h, block);
    b := Step(27, WideG(c, d, a), b, c, d, a, w, 8, 0x455a14ed, 20, h, block);
    a := Step(28, WideG(b, c, d), a, b, c, d, w, 13, 0xa9e3e905, 5, h, block);
    d := Step(29, WideG(a, b, c), d, a, b, c, w, 2, 0xfcefa3f8, 9, h, block);
    c := Step(30, WideG(d, a, b), c, d, a, b, w, 7, 0x676f02d9, 14, h, block);
    b := Step(31, WideG(c, d, a), b, c, d, a, w, 12, 0x8d2a4c8a, 20, h, block);
  }

  lemma Rows3()
    ensures Row(32, 5, 0xfffa3942, 4) && Row(33, 8, 0x8771f681, 11)
    ensures Row(34, 11, 0x6d9d6122, 16) && Row(35, 14, 0xfde5380c, 23)
    ensures Row(36, 1, 0xa4beea44, 4) && Row(37, 4, 0x4bdecfa9, 11)
    ensures Row(38, 7, 0xf6bb4b60, 16) && Row(39, 10, 0xbebfbc70, 23)
    ensures Row(40, 13, 0x289b7ec6, 4) && Row(41, 0, 0xeaa127fa, 11)
    ensures Row(42, 3, 0xd4ef3085, 16) && Row(43, 6, 0x04881d05, 23)
    ensures Row(44, 9, 0xd9d4d039, 4) && Row(45, 12, 0xe6db99e5, 11)
    ensures Row(46, 15, 0x1fa27cf8, 16) && Row(47, 2, 0xc4ac5665, 23)
  {
    hide Sine1, Sine2, Sine4;
  }

  method Round3Begins(a0: bv64, b0: bv64, c0: bv64, d0: bv64, w: seq<bv64>, ghost h: Hash, ghost block: Bytes)
    returns (a: bv64, b: bv64, c: bv64, d: bv64)
    requires Loaded(w, block) && Steps(h, block, 32) == Hash(Low(a0), Low(b0), Low(c0), Low(d0))
    ensures Steps(h, block, 40) == Hash(Low(a), Low(b), Low(c), Low(d))
  {
    hide Steps, Loaded, Row, Low, WideF, WideG, WideH, WideI;
    Rows3();
    a, b, c, d := a0, b0, c0, d0;
    a := Step(32, WideH(b, c, d), a, b, c, d, w, 5, 0xfffa3942, 4, h, block);
    d := Step(33, WideH(a, b, c), d, a, b, c, w, 8, 0x8771f681, 11, h, block);
    c := Step(34, WideH(d, a, b), c, d, a, b, w, 11, 0x6d9d6122, 16, h, block);
    b := Step(35, WideH(c, d, a), b, c, d, a, w, 14, 0xfde5380c, 23, h, block);
    a := Step(36, WideH(b, c, d), a, b, c, d, w, 1, 0xa4beea44, 4, h, block);
    d := Step(37, WideH(a, b, c), d, a, b, c, w, 4, 0x4bdecfa9, 11, h, block);
    c := Step(38, WideH(d, a, b), c, d, a, b, w, 7, 0xf6bb4b60, 16, h, block);
    b := Step(39, WideH(c, d, a), b, c, d, a, w, 10, 0xbebfbc70, 23, h, block);
  }

  method Round3Ends(a0: bv64, b0: bv64, c0: bv64, d0: bv64, w: seq<bv64>, ghost h: Hash, ghost block: Bytes)
    returns (a: bv64, b: bv64, c: bv64, d: bv64)
    requires Loaded(w, block) && Steps(h, block, 40) == Hash(Low(a0), Low(b0), Low(c0), Low(d0))
    ensures Steps(h, block, 48) == Hash(Low(a), Low(b), Low(c), Low(d))
  {
    hide Steps, Loaded, Row, Low, WideF, WideG, WideH, WideI;
    Rows3();
    a, b, c, d := a0, b0, c0, d0;
    a := Step(40, WideH(b, c, d), a, b, c, d, w, 13, 0x289b7ec6, 4, h, block);
    d := Step(41, WideH(a, b, c), d, a, b, c, w, 0, 0xeaa127fa, 11, h, block);
    c := Step(42, WideH(d, a, b), c, d, a, b, w, 3, 0xd4ef3085, 16, h, block);
    b := Step(43, WideH(c, d, a), b, c, d, a, w, 6, 0x04881d05, 23, h, block);
    a := Step(44, WideH(b, c, d), a, b, c, d, w, 9, 0xd9d4d039, 4, h, block);
    d := Step(45, WideH(a, b, c), d, a, b, c, w, 12, 0xe6db99e5, 11, h, block);
    c := Step(46, WideH(d, a, b), c, d, a, b, w, 15, 0x1fa27cf8, 16, h, block);
    b := Step(47, WideH(c, d, a), b, c, d, a, w, 2, 0xc4ac5665, 23, h, block);
  }

  lemma Rows4()
    ensures Row(48, 0, 0xf4292244, 6) && Row(49, 7, 0x432aff97, 10)
    ensures Row(50, 14, 0xab9423a7, 15) && Row(51, 5, 0xfc93a039, 21)
    ensures Row(52, 12, 0x655b59c3, 6) && Row(53, 3, 0x8f0ccc92, 10)
    ensures Row(54, 10, 0xffeff47d, 15) && Row(55, 1, 0x85845dd1, 21)
    ensures Row(56, 8, 0x6fa87e4f, 6) && Row(57, 15, 0xfe2ce6e0, 10)
    ensures Row(58, 6, 0xa3014314, 15) && Row(59, 13, 0x4e0811a1, 21)
    ensures Row(60, 4, 0xf7537e82, 6) && Row(61, 11, 0xbd3af235, 10)
    ensures Row(62, 2, 0x2ad7d2bb, 15) && Row(63, 9, 0xeb86d391, 21)
  {
    hide Sine1, Sine2, Sine3;
  }

  method Round4Begins(a0: bv64, b0: bv64, c0: bv64, d0: bv64, w: seq<bv64>, ghost h: Hash, ghost block: Bytes)
    returns (a: bv64, b: bv64, c: bv64, d: bv64)
    requires Loaded(w, block) && Steps(h, block, 48) == Hash(Low(a0), Low(b0), Low(c0), Low(d0))
    ensures Steps(h, block, 56) == Hash(Low(a), Low(b), Low(c), Low(d))
  {
    hide Steps, Loaded, Row, Low, WideF, WideG, WideH, WideI;
    Rows4();
    a, b, c, d := a0, b0, c0, d0;
    a := Step(48, WideI(b, c, d), a, b, c, d, w, 0, 0xf4292244, 6, h, block);
    d := Step(49, WideI(a, b, c), d, a, b, c, w, 7, 0x432aff97, 10, h, block);
    c := Step(50, WideI(d, a, b), c, d, a, b, w, 14, 0xab9423a7, 15, h, block);
    b := Step(51, WideI(c, d, a), b, c, d, a, w, 5, 0xfc93a039, 21, h, block);
    a := Step(52, WideI(b, c, d), a, b, c, d, w, 12, 0x655b59c3, 6, h, block);
    d := Step(53, WideI(a, b, c), d, a, b, c, w, 3, 0x8f0ccc92, 10, h, block);
    c := Step(54, WideI(d, a, b), c, d, a, b, w, 10, 0xffeff47d, 15, h, block);
    b := Step(55, WideI(c, d, a), b, c, d, a, w, 1, 0x85845dd1, 21, h, block);
  }

  method Round4Ends(a0: bv64, b0: bv64, c0: bv64, d0: bv64, w: seq<bv64>, ghost h: Hash, ghost block: Bytes)
    returns (a: bv64, b: bv64, c: bv64, d: bv64)
    requires Loaded(w, block) && Steps(h, block, 56) == Hash(Low(a0), Low(b0), Low(c0), Low(d0))
    ensures Steps(h, block, 64) == Hash(Low(a), Low(b), Low(c), Low(d))
  {
    hide Steps, Loaded, Row, Low, WideF, WideG, WideH, WideI;
    Rows4();
    a, b, c, d := a0, b0, c0, d0;
    a := Step(56, WideI(b, c, d), a, b, c, d, w, 8, 0x6fa87e4f, 6, h, block);
    d := Step(57, WideI(a, b, c), d, a, b, c, w, 15, 0xfe2ce6e0, 10, h, block);
    c := Step(58, WideI(d, a, b), c, d, a, b, w, 6, 0xa3014314, 15, h, block);
    b := Step(59, WideI(c, d, a), b, c, d, a, w, 13, 0x4e0811a1, 21, h, block);
    a := Step(60, WideI(b, c, d), a, b, c, d, w, 4, 0xf7537e82, 6, h, block);
    d := Step(61, WideI(a, b, c), d, a, b, c, w, 11, 0xbd3af235, 10, h, block);
    c := Step(62, WideI(d, a, b), c, d, a, b, w, 2, 0x2ad7d2bb, 15, h, block);
    b := Step(63, WideI(c, d, a), b, c, d, a, w, 9, 0xeb86d391, 21, h, block);
  }

  // ---- the context ----

  const SPLIT := 0x2000_0000             // the low count holds 29 bits of bytes, 32 bits of bits
  const WIDTH := 0x1_0000_0000_0000_0000

  lemma JoinLow(p: bv8, q: bv8, r: bv8, s: bv8)
    ensures Low(Join(p, q, r, s)) == Join(p, q, r, s)
  {
  }

  lemma BytesLow(x: bv64)
    ensures Bytes4(x) == Bytes4(Low(x))
  {
  }

  /** The marker and zeros to the end of the block. */
  ghost function Filler(n: nat): (z: Bytes)
    requires n % BLOCK >= BLOCK - 8
    ensures |z| == BLOCK - n % BLOCK
  {
    [0x80] + Zeros(BLOCK - n % BLOCK - 1)
  }

  /** What the last block begins with: the tail of the message and the marker, or nothing. */
  ghost function Rest(m: Bytes, used: nat): Bytes {
    if used == 0 then [] else m[|m| - |m| % BLOCK..] + [0x80]
  }

  /** The padded message, however many blocks its end takes. */
  lemma Finishes(m: Bytes, used: nat)
    requires used == if |m| % BLOCK < BLOCK - 8 then |m| % BLOCK + 1 else 0
    ensures var h := Blocks(IV(), if used == 0 then m + Filler(|m|) else m);
            Blocks(IV(), Padded(m)) == Blocks(h, Rest(m, used) + Zeros(BLOCK - used - 8) + LengthField(|m|))
  {
    hide Blocks, LengthField, Zeros, Filler, Padded, Rest;
    if used > 0 {
      FinishesHere(m, LengthField(|m|), Zeros(BLOCK - used - 8), used);
    } else {
      FinishesBehind(m, LengthField(|m|), Zeros(BLOCK - 8));
    }
  }

  /** The length still fits behind the marker. */
  lemma FinishesHere(m: Bytes, l: Bytes, z: Bytes, used: nat)
    requires |m| % BLOCK < BLOCK - 8 && used == |m| % BLOCK + 1 && l == LengthField(|m|) && z == Zeros(BLOCK - used - 8)
    ensures Blocks(IV(), Padded(m)) == Blocks(Blocks(IV(), m), Rest(m, used) + z + l)
  {
    hide Blocks, LengthField, Zeros, Padded, Gap, Rest;
    GapHere(|m|);
    PaddedIs(m, z, l);
    LastFilled(m, l, z, used - 1);
  }

  lemma WholeNow(n: nat, k: nat)
    requires n % BLOCK + k == BLOCK
    ensures (n + k) % BLOCK == 0
  {
  }

  lemma GapHere(n: nat)
    requires n % BLOCK < BLOCK - 8
    ensures Gap(n) == BLOCK - n % BLOCK - 9
  {
  }

  /** So many bytes of `n` are behind the last whole block. */
  predicate Behind(n: nat, k: nat) { k == n % BLOCK }

  /** The tail, the marker, zeros and the length make one block. */
  lemma LastFilled(m: Bytes, l: Bytes, z: Bytes, k: nat)
    requires Behind(|m|, k) && k + 1 + |z| + |l| == BLOCK
    ensures Blocks(IV(), m + ([0x80] + z + l)) == Blocks(Blocks(IV(), m), Rest(m, k + 1) + z + l)
  {
    hide Blocks, Rest, Behind;
    FilledBehind(m, [0x80] + z + l, k);
    RestIs(m, k);
    Regroup(m[|m| - k..], [0x80], z, l);
  }

  lemma FilledBehind(m: Bytes, x: Bytes, k: nat)
    requires Behind(|m|, k) && k + |x| == BLOCK
    ensures k <= |m| && Blocks(IV(), m + x) == Blocks(Blocks(IV(), m), m[|m| - k..] + x)
  {
    BlockFilled(m, x, k);
  }

  lemma RestIs(m: Bytes, k: nat)
    requires Behind(|m|, k)
    ensures k <= |m| && Rest(m, k + 1) == m[|m| - k..] + [0x80]
  {
  }

  lemma Regroup(a: Bytes, b: Bytes, c: Bytes, d: Bytes)
    ensures a + (b + c + d) == a + b + c + d
  {
    assert a + (b + c + d) == a + b + c + d;
  }

  /** The length takes a block of its own. */
  lemma FinishesBehind(m: Bytes, l: Bytes, z: Bytes)
    requires |m| % BLOCK >= BLOCK - 8 && l == LengthField(|m|) && z == Zeros(BLOCK - 8)
    ensures Blocks(IV(), Padded(m)) == Blocks(Blocks(IV(), m + Filler(|m|)), Rest(m, 0) + z + l)
  {
    hide Blocks, LengthField, Zeros, Filler, Padded, Gap;
    var k := BLOCK - |m| % BLOCK - 1;
    var y := Zeros(k);
    GapBehind(|m|);
    ZerosJoin(k, BLOCK - 8);
    PaddedIs(m, y + z, l);
    TwoBlocks(m, y, z, l);
    FillerIs(|m|);
    assert Rest(m, 0) + z + l == z + l;
  }

  lemma GapBehind(n: nat)
    requires n % BLOCK >= BLOCK - 8
    ensures Gap(n) == BLOCK - n % BLOCK - 1 + (BLOCK - 8)
  {
  }

  lemma FillerIs(n: nat)
    requires n % BLOCK >= BLOCK - 8
    ensures Filler(n) == [0x80] + Zeros(BLOCK - n % BLOCK - 1)
  {
  }

  lemma PaddedIs(m: Bytes, z: Bytes, l: Bytes)
    requires z == Zeros(Gap(|m|)) && l == LengthField(|m|)
    ensures Padded(m) == m + ([0x80] + z + l)
  {
    hide LengthField, Zeros, Gap;
  }

  lemma TwoBlocks(m: Bytes, y: Bytes, z: Bytes, l: Bytes)
    requires (|m| + 1 + |y|) % BLOCK == 0
    ensures Blocks(IV(), m + ([0x80] + (y + z) + l)) == Blocks(Blocks(IV(), m + ([0x80] + y)), z + l)
  {
    hide Blocks;
    assert m + ([0x80] + (y + z) + l) == m + ([0x80] + y) + (z + l);
    BlocksJoin(IV(), m + ([0x80] + y), z + l);
  }

  lemma ZerosJoin(j: nat, k: nat)
    ensures Zeros(j + k) == Zeros(j) + Zeros(k)
  {
  }

  /** Bytes of a number that lie in its low word. */
  lemma LowWord(x: nat, t: nat, r: nat)
    requires x == 0x1_0000_0000 * t + r
    ensures x % 0x100 == r % 0x100 && x / 0x100 % 0x100 == r / 0x100 % 0x100
    ensures x / 0x1_0000 % 0x100 == r / 0x1_0000 % 0x100 && x / 0x100_0000 % 0x100 == r / 0x100_0000 % 0x100
  {
    LowByte0(x, t, r);
    LowByte1(x, t, r);
    LowByte2(x, t, r);
    LowByte3(x, t, r);
  }

  lemma LowByte0(x: nat, t: nat, r: nat)
    requires x == 0x1_0000_0000 * t + r
    ensures x % 0x100 == r % 0x100
  {
  }

  lemma LowByte1(x: nat, t: nat, r: nat)
    requires x == 0x1_0000_0000 * t + r
    ensures x / 0x100 % 0x100 == r / 0x100 % 0x100
  {
    assert x / 0x100 == 0x100_0000 * t + r / 0x100;
  }

  lemma LowByte2(x: nat, t: nat, r: nat)
    requires x == 0x1_0000_0000 * t + r
    ensures x / 0x1_0000 % 0x100 == r / 0x1_0000 % 0x100
  {
    assert x / 0x1_0000 == 0x1_0000 * t + r / 0x1_0000;
  }

  lemma LowByte3(x: nat, t: nat, r: nat)
    requires x == 0x1_0000_0000 * t + r
    ensures x / 0x100_0000 % 0x100 == r / 0x100_0000 % 0x100
  {
    assert x / 0x100_0000 == 0x100 * t + r / 0x100_0000;
  }

  /** Bytes above the low word. */
  lemma HighWord(x: nat, q: nat)
    requires q == x / 0x1_0000_0000
    ensures x / 0x100_0000_0000 == q / 0x100 && x / 0x1_0000_0000_0000 == q / 0x1_0000
    ensures x / 0x100_0000_0000_0000 == q / 0x100_0000
  {
  }

  /** The two counts hold the length in bits. */
  lemma LengthIs(n: nat)
    ensures var lo, hi := n % SPLIT * 8, n / SPLIT % WIDTH;
            LengthField(n) ==
            [ToByte(lo), ToByte(lo / 0x100), ToByte(lo / 0x1_0000), ToByte(lo / 0x100_0000),
             ToByte(hi), ToByte(hi / 0x100), ToByte(hi / 0x1_0000), ToByte(hi / 0x100_0000)]
  {
    hide ToByte;
    var x, q, lo := 8 * n, n / SPLIT, n % SPLIT * 8;
    assert n == SPLIT * q + n % SPLIT;
    assert x == 0x1_0000_0000 * q + lo;
    LowWord(x, q, lo);
    HighWord(x, q);
    assert q == 0x1_0000_0000 * (0x1_0000_0000 * (q / WIDTH)) + q % WIDTH;
    LowWord(q, 0x1_0000_0000 * (q / WIDTH), q % WIDTH);
    SameByte(x, lo);
    SameByte(x / 0x100, lo / 0x100);
    SameByte(x / 0x1_0000, lo / 0x1_0000);
    SameByte(x / 0x100_0000, lo / 0x100_0000);
    SameByte(q, q % WIDTH);
    SameByte(q / 0x100, q % WIDTH / 0x100);
    SameByte(q / 0x1_0000, q % WIDTH / 0x1_0000);
    SameByte(q / 0x100_0000, q % WIDTH / 0x100_0000);
  }

  lemma SameByte(x: nat, y: nat)
    requires x % 0x100 == y % 0x100
    ensures ToByte(x) == ToByte(y)
  {
  }

  class Context {
    var lo: nat
    var hi: nat
    var a: bv64
    var b: bv64
    var c: bv64
    var d: bv64
    const buffer: array<Byte8>
    ghost var message: Bytes    // everything taken in so far

    ghost function State(): Hash
      reads this`a, this`b, this`c, this`d
    {
      Hash(Low(a), Low(b), Low(c), Low(d))
    }

    /** The words are those of all whole blocks so far, the rest is in the buffer, and the two counts are the
        bytes so far, split at 29 bits. */
    ghost predicate Valid()
      reads this, buffer
    {
      Counted(|message|) && Held(message)
    }

    ghost predicate Held(m: Bytes)
      reads this`a, this`b, this`c, this`d, buffer
    {
      && buffer.Length == BLOCK && State() == Blocks(IV(), m)
      && buffer[..|m| % BLOCK] == m[|m| - |m| % BLOCK..]
    }

    ghost predicate Counted(n: nat)
      reads this`lo, this`hi
    {
      lo == n % SPLIT && hi == n / SPLIT % WIDTH
    }

    /** MD5_Init */
    constructor ()
      ensures Valid() && message == [] && fresh(buffer)
    {
      a, b, c, d := 0x67452301, 0xefcdab89, 0x98badcfe, 0x10325476;
      lo, hi, message := 0, 0, [];
      buffer := new Byte8[BLOCK](_ => 0);
    }

    /** The body of the loop in body: one block. */
    method OneBlock(block: Bytes)
      requires |block| == BLOCK
      modifies this`a, this`b, this`c, this`d
      ensures State() == Compress(old(State()), block)
    {
      hide Low, Loaded, Steps, Add;
      ghost var h := State();
      NoSteps(h, block);
      var w := Load(block);
      var a', b', c', d' := Round1Begins(a, b, c, d, w, h, block);
      a', b', c', d' := Round1Ends(a', b', c', d', w, h, block);
      a', b', c', d' := Round2Begins(a', b', c', d', w, h, block);
      a', b', c', d' := Round2Ends(a', b', c', d', w, h, block);
      a', b', c', d' := Round3Begins(a', b', c', d', w, h, block);
      a', b', c', d' := Round3Ends(a', b', c', d', w, h, block);
      a', b', c', d' := Round4Begins(a', b', c', d', w, h, block);
      a', b', c', d' := Round4Ends(a', b', c', d', w, h, block);
      PlusLow(a', a);
      PlusLow(b', b);
      PlusLow(c', c);
      PlusLow(d', d);
      AddCommutes(Low(a), Low(a'));
      AddCommutes(Low(b), Low(b'));
      AddCommutes(Low(c), Low(c'));
      AddCommutes(Low(d), Low(d'));
      a, b, c, d := Plus(a', a), Plus(b', b), Plus(c', c), Plus(d', d);
    }

    /** body: one or more whole blocks. */
    method Body(data: Bytes)
      requires |data| >= BLOCK && |data| % BLOCK == 0
      modifies this`a, this`b, this`c, this`d
      ensures State() == Blocks(old(State()), data)
    {
      hide Blocks, Compress, State;
      var p := 0;
      ghost var h := State();
      assert data[0..] == data;
      while p < |data|
        invariant 0 <= p <= |data| && p % BLOCK == 0 && Blocks(State(), data[p..]) == Blocks(h, data)
      {
        BlocksStep(State(), data, p);
        OneBlock(data[p..p + BLOCK]);
        p := p + BLOCK;
      }
      BlocksShort(State(), data[p..]);
    }

    method Copy(at: nat, data: Bytes)
      requires at + |data| <= buffer.Length
      modifies buffer
      ensures buffer[..at] == old(buffer[..at]) && buffer[at..at + |data|] == data
    {
      var i := 0;
      while i < |data|
        invariant 0 <= i <= |data| && buffer[..at] == old(buffer[..at]) && buffer[at..at + i] == data[..i]
      {
        buffer[at + i] := data[i];
        i := i + 1;
      }
    }

    /** The counts: the carry out of 29 bits shows in the low count having become smaller. */
    method Count(size: nat, ghost n: nat)
      requires Counted(n)
      modifies this`lo, this`hi
      ensures Counted(n + size)
    {
      CountsTogether(n, size);
      var saved_lo := lo;
      lo := (saved_lo + size) % SPLIT;
      if lo < saved_lo { hi := (hi + 1) % WIDTH; }
      hi := (hi + size / SPLIT) % WIDTH;
    }

    /** A piece that does not fill the buffer. */
    method Keep(used: nat, x: Bytes, ghost m: Bytes)
      requires Held(m) && used == |m| % BLOCK && used + |x| < BLOCK
      modifies buffer
      ensures Held(m + x)
    {
      hide Blocks, State;
      Copy(used, x);
      BlocksTail(m, x, used);
      KeptTail(m, x, used);
      assert buffer[..used + |x|] == buffer[..used] + buffer[used..used + |x|];
    }

    /** The buffer is filled up and processed. */
    method FillUp(used: nat, x: Bytes, ghost m: Bytes)
      requires Held(m) && used == |m| % BLOCK && used + |x| == BLOCK
      modifies this`a, this`b, this`c, this`d, buffer
      ensures Held(m + x) && |m + x| % BLOCK == 0
    {
      hide Blocks, State;
      Copy(used, x);
      assert buffer[..] == buffer[..used] + buffer[used..used + |x|];
      BlockFilled(m, x, used);
      WholeNow(|m|, |x|);
      Body(buffer[..]);
    }

    /** Whole blocks are processed where they are, and the rest is kept in the buffer. */
    method Take(rest: Bytes, ghost done: Bytes)
      requires Held(done) && |done| % BLOCK == 0
      modifies this`a, this`b, this`c, this`d, buffer
      ensures Held(done + rest)
    {
      hide Blocks, State;
      var whole := |rest| - |rest| % BLOCK;
      BlocksMore(done, rest, whole);
      if |rest| >= BLOCK { Body(rest[..whole]); }
      Copy(0, rest[whole..]);
      TailIs(done, rest, whole);
      assert buffer[0..0 + |rest[whole..]|] == buffer[..|rest| % BLOCK];
    }

    /** MD5_Update: a piece of any size. */
    method Update(data: Bytes)
      requires Valid() && |data| < WIDTH
      modifies this, buffer
      ensures Valid() && message == old(message) + data
    {
      hide Held, Counted;
      ghost var m := message;
      var used := Used();
      Count(|data|, |m|);
      message := m + data;
      if used > 0 {
        var free := BLOCK - used;
        if |data| < free {
          Keep(used, data, m);
          return;
        }
        FillUp(used, data[..free], m);
        assert m + data == m + data[..free] + data[free..];
        Take(data[free..], m + data[..free]);
      } else {
        Take(data, m);
      }
    }

    /** memset of a part of the buffer. */
    method Clear(at: nat, n: nat)
      requires at + n <= buffer.Length
      modifies buffer
      ensures buffer[..at] == old(buffer[..at]) && buffer[at..at + n] == Zeros(n)
    {
      Copy(at, Zeros(n));
    }

    /** The marker byte behind the message; a block in which no length fits any more is processed. */
    method Mark() returns (used: nat)
      requires Valid()
      modifies this`a, this`b, this`c, this`d, buffer
      ensures used <= BLOCK - 8 && buffer[..used] == Rest(message, used)
      ensures used > 0 ==> used == |message| % BLOCK + 1 && State() == Blocks(IV(), message)
      ensures used == 0 ==> |message| % BLOCK >= BLOCK - 8 && State() == Blocks(IV(), message + Filler(|message|))
      ensures buffer.Length == BLOCK
    {
      hide Blocks, State, Zeros;
      ghost var m := message;
      used := Used();
      Copy(used, [0x80]);
      used := used + 1;
      assert buffer[..used] == buffer[..used - 1] + buffer[used - 1..used - 1 + 1];
      var free := BLOCK - used;
      if free < 8 {
        Clear(used, free);
        assert buffer[..] == buffer[..used] + buffer[used..used + free];
        assert buffer[..] == m[|m| - (used - 1)..] + Filler(|m|);
        BlockFilled(m, Filler(|m|), used - 1);
        Body(buffer[..]);
        used := 0;
      }
    }

    /** Zeros and the length make the last block complete. */
    method Complete(used: nat, field: Bytes, ghost z: Bytes)
      requires buffer.Length == BLOCK && used <= BLOCK - 8 && |field| == 8 && buffer[..used] == z
      modifies buffer
      ensures buffer[..] == z + Zeros(BLOCK - used - 8) + field
    {
      hide Zeros;
      Clear(used, BLOCK - used - 8);
      assert buffer[..56] == buffer[..used] + buffer[used..used + (BLOCK - used - 8)];
      Copy(56, field);
      assert buffer[..] == buffer[..56] + buffer[56..56 + 8];
    }

    /** MD5_Final: the digest of everything that was taken in. */
    method Final() returns (result: Bytes)
      requires Valid()
      modifies this, buffer
      ensures result == Digest(old(message))
    {
      hide Blocks, State, Zeros, LengthField, Output, Rest, Filler, ToByte, Padded;
      ghost var m := message;
      LengthIs(|m|);
      var used := Mark();
      lo := lo * 8;
      Complete(used, [ToByte(lo), ToByte(lo / 0x100), ToByte(lo / 0x1_0000), ToByte(lo / 0x100_0000),
                      ToByte(hi), ToByte(hi / 0x100), ToByte(hi / 0x1_0000), ToByte(hi / 0x100_0000)], Rest(m, used));
      Finishes(m, used);
      Body(buffer[..]);
      OutputIs();
      result := Bytes4(a) + Bytes4(b) + Bytes4(c) + Bytes4(d);
      lo, hi, a, b, c, d := 0, 0, 0, 0, 0, 0;
    }

    lemma OutputIs()
      ensures Bytes4(a) + Bytes4(b) + Bytes4(c) + Bytes4(d) == Output(State())
    {
      hide Low, Bytes4;
      BytesLow(a);
      BytesLow(b);
      BytesLow(c);
      BytesLow(d);
    }

    /** How much of the buffer is in use. */
    function Used(): (u: nat)
      requires Valid()
      reads this, buffer
      ensures u == |message| % BLOCK
    {
      assert |message| % SPLIT % BLOCK == |message| % BLOCK by { Splits(|message|); }
      lo % BLOCK
    }
  }

  lemma TailIs(done: Bytes, rest: Bytes, whole: nat)
    requires |done| % BLOCK == 0 && whole == |rest| - |rest| % BLOCK
    ensures var m := done + rest;
            |m| % BLOCK == |rest| % BLOCK && |m| - |m| % BLOCK == |done| + whole && m[|done| + whole..] == rest[whole..]
  {
  }

  lemma Splits(n: nat)
    ensures n % SPLIT % BLOCK == n % BLOCK
  {
    assert n == SPLIT * (n / SPLIT) + n % SPLIT;
    assert SPLIT == BLOCK * 0x80_0000;
  }

  lemma CountsTogether(n: nat, size: nat)
    ensures var lo, hi := n % SPLIT, n / SPLIT % WIDTH;
            var lo' := (lo + size) % SPLIT;
            && lo' == (n + size) % SPLIT
            && ((if lo' < lo then (hi + 1) % WIDTH else hi) + size / SPLIT) % WIDTH == (n + size) / SPLIT % WIDTH
  {
    var lo, x, y := n % SPLIT, n / SPLIT, size / SPLIT;
    assert n + size == SPLIT * (x + y) + (lo + size % SPLIT);
    var carry := if lo + size % SPLIT >= SPLIT then 1 else 0;
    assert (n + size) / SPLIT == x + y + carry;
    assert (lo + size) % SPLIT == lo + size % SPLIT - SPLIT * carry;
    ModSum(x, carry);
    ModSum(x + carry, y);
  }

  lemma ModSum(x: nat, y: nat)
    ensures (x % WIDTH + y) % WIDTH == (x + y) % WIDTH
  {
    assert x == WIDTH * (x / WIDTH) + x % WIDTH;
  }

  lemma NoSteps(h: Hash, block: Bytes)
    requires |block| == BLOCK
    ensures Steps(h, block, 0) == h
  {
  }

  lemma AddCommutes(x: bv64, y: bv64)
    ensures Add(x, y) == Add(y, x)
  {
  }

  /** SET for all 16 words. */
  method Load(block: Bytes) returns (w: seq<bv64>)
    requires |block| == BLOCK
    ensures Loaded(w, block)
  {
    hide Low, Join;
    w := [];
    while |w| < 16
      invariant |w| <= 16 && forall k :: 0 <= k < |w| ==> Low(w[k]) == Input(block, k)
    {
      var n := |w|;
      JoinLow(block[n * 4], block[n * 4 + 1], block[n * 4 + 2], block[n * 4 + 3]);
      w := w + [Join(block[n * 4], block[n * 4 + 1], block[n * 4 + 2], block[n * 4 + 3])];
    }
  }

  lemma BlocksStep(h: Hash, data: Bytes, p: nat)
    requires p + BLOCK <= |data|
    ensures Blocks(h, data[p..]) == Blocks(Compress(h, data[p..p + BLOCK]), data[p + BLOCK..])
  {
    hide Compress;
    assert data[p..][..BLOCK] == data[p..p + BLOCK] && data[p..][BLOCK..] == data[p + BLOCK..];
  }

  /** A tail shorter than a block changes nothing yet. */
  lemma BlocksTail(m: Bytes, x: Bytes, used: nat)
    requires used == |m| % BLOCK && used + |x| < BLOCK
    ensures Blocks(IV(), m + x) == Blocks(IV(), m)
  {
    hide Blocks;
    var front, tail := m[..|m| - used], m[|m| - used..];
    WholeFront(|m|, used);
    Apart(m, x, |m| - used);
    BlocksJoin(IV(), front, tail);
    BlocksJoin(IV(), front, tail + x);
    BlocksShort(Blocks(IV(), front), tail);
    BlocksShort(Blocks(IV(), front), tail + x);
  }

  /** What is kept is the tail of what has been taken in. */
  lemma KeptTail(m: Bytes, x: Bytes, used: nat)
    requires used == |m| % BLOCK && used + |x| < BLOCK
    ensures |m + x| % BLOCK == used + |x| && used <= |m|
    ensures (m + x)[|m + x| - |m + x| % BLOCK..] == m[|m| - used..] + x
  {
    KeptLength(|m|, |x|, used);
    assert (m + x)[|m| - used..] == m[|m| - used..] + x;
  }

  lemma KeptLength(n: nat, k: nat, used: nat)
    requires used == n % BLOCK && used + k < BLOCK
    ensures (n + k) % BLOCK == used + k && used <= n
  {
  }

  lemma WholeFront(n: nat, used: nat)
    requires used == n % BLOCK
    ensures used <= n && (n - used) % BLOCK == 0
  {
  }

  lemma Apart(m: Bytes, x: Bytes, k: nat)
    requires k <= |m|
    ensures m == m[..k] + m[k..] && m + x == m[..k] + (m[k..] + x)
  {
  }

  /** What fills the last block up is processed with it. */
  lemma BlockFilled(m: Bytes, x: Bytes, used: nat)
    requires used == |m| % BLOCK && used + |x| == BLOCK
    ensures Blocks(IV(), m + x) == Blocks(Blocks(IV(), m), m[|m| - used..] + x)
  {
    hide Blocks;
    var front := m[..|m| - used];
    assert m == front + m[|m| - used..] && m + x == front + (m[|m| - used..] + x);
    BlocksJoin(IV(), front, m[|m| - used..] + x);
    BlocksJoin(IV(), front, m[|m| - used..]);
    BlocksShort(Blocks(IV(), front), m[|m| - used..]);
  }

  lemma BlocksMore(done: Bytes, rest: Bytes, whole: nat)
    requires |done| % BLOCK == 0 && whole == |rest| - |rest| % BLOCK
    ensures Blocks(IV(), done + rest) == Blocks(Blocks(IV(), done), rest[..whole])
    ensures |rest| < BLOCK ==> Blocks(IV(), done + rest) == Blocks(IV(), done)
  {
    hide Blocks;
    assert rest == rest[..whole] + rest[whole..];
    BlocksJoin(IV(), done, rest);
    BlocksJoin(Blocks(IV(), done), rest[..whole], rest[whole..]);
    BlocksShort(Blocks(Blocks(IV(), done), rest[..whole]), rest[whole..]);
    if |rest| < BLOCK { BlocksShort(Blocks(IV(), done), rest); }
  }
}
