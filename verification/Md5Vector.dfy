/** The digest of "abc", as the test suite of RFC 1321 gives it (section A.5): every constant of the definition takes
    part in it. */
module Md5Vector {
  import opened Md5Spec

  function Abc(): Bytes { [0x61, 0x62, 0x63] }

  /** The message padded to one block. */
  function Padded1(): (p: Bytes)
    ensures |p| == 64
  {
    Abc() + [0x80] + seq(52, _ => 0) + [0x18, 0, 0, 0, 0, 0, 0, 0]
  }

  /** The words of that block. */
  function WordOf(k: nat): Word { if k == 0 then 0x80636261 else if k == 14 then 0x18 else 0 }

  lemma WordsAre(k: nat)
    requires k < 16
    ensures Input(Padded1(), k) == WordOf(k)
  {
    hide Join;
    JoinAre();
  }

  lemma JoinAre()
    ensures Join(0x61, 0x62, 0x63, 0x80) == 0x80636261 && Join(0x18, 0, 0, 0) == 0x18 && Join(0, 0, 0, 0) == 0
  {
  }

  lemma PaddedIs()
    ensures Padded(Abc()) == Padded1()
  {
    hide ToByte;
    FieldIs();
    assert Gap(3) == 52;
  }

  lemma FieldIs()
    ensures LengthField(3) == [0x18, 0, 0, 0, 0, 0, 0, 0]
  {
    hide ToByte;
    ByteIs();
    assert 24 / 0x100 == 0 && 24 / 0x1_0000 == 0 && 24 / 0x100_0000 == 0 && 24 / 0x1_0000_0000 == 0;
    assert 24 / 0x100_0000_0000 == 0 && 24 / 0x1_0000_0000_0000 == 0 && 24 / 0x100_0000_0000_0000 == 0;
  }

  lemma ByteIs()
    ensures ToByte(24) == 0x18 && ToByte(0) == 0
  {
  }

  lemma AddIs(x: Word, y: Word)
    ensures Add(x, y) == (x + y) & 0xffff_ffff
  {
  }

  lemma RotatedIs(x: Word, s: bv6)
    requires 0 < s < 32
    ensures Rotated(x, s) == ((x << s) | (x >> (32 - s))) & 0xffff_ffff
  {
  }

  lemma StepIs(a: Word, b: Word, c: Word, d: Word, i: nat, x: Word)
    ensures Step(Hash(a, b, c, d), i, x) ==
            Hash(d, Add(Rotated(Add(a, Add(Add(Mix(i, b, c, d), x), Sine(i))), Turn(i)), b), b, c)
  {
    hide Add, Rotated, Mix, Sine, Turn;
  }

  lemma StepsOn(i: nat)
    ensures Steps(IV(), Padded1(), i + 1) ==
            Step(Steps(IV(), Padded1(), i), i, WordOf(Index(i)))
  {
    hide Step, Input, IV, WordOf, Index, Padded1;
    WordsAre(Index(i));
  }

  /** One step takes the state (a, b, c, d) to (d, n, b, c); `f` is what the function of its round gives, `x` the word
      it takes, `t` its constant, `s` how far it rotates; `u`, `w`, `v` and `r` are what comes in between. */
  lemma On(i: nat, a: Word, b: Word, c: Word, d: Word, f: Word, x: Word, t: Word, s: bv6, u: Word, w: Word, v: Word,
      r: Word, n: Word)
    requires Steps(IV(), Padded1(), i) == Hash(a, b, c, d)
    requires Mix(i, b, c, d) == f && WordOf(Index(i)) == x && Sine(i) == t && Turn(i) == s
    requires u == (f + x) & 0xffff_ffff && w == (u + t) & 0xffff_ffff && v == (a + w) & 0xffff_ffff
    requires 0 < s < 32 && r == ((v << s) | (v >> (32 - s))) & 0xffff_ffff && n == (r + b) & 0xffff_ffff
    ensures Steps(IV(), Padded1(), i + 1) == Hash(d, n, b, c)
  {
    hide Steps, Input, IV, WordOf, Index, Mix, Sine, Turn, Step, Add, Rotated, Padded1;
    StepsOn(i);
    StepIs(a, b, c, d, i, x);
    AddIs(f, x);
    AddIs(u, t);
    AddIs(a, w);
    RotatedIs(v, s);
    AddIs(r, b);
  }

  lemma MixF(i: nat, b: Word, c: Word, d: Word)
    requires i < 16
    ensures Mix(i, b, c, d) == ((b & c) | (!b & d)) & 0xffff_ffff
  {
    hide G, H, I;
  }

  lemma MixG(i: nat, b: Word, c: Word, d: Word)
    requires 16 <= i < 32
    ensures Mix(i, b, c, d) == ((b & d) | (c & !d)) & 0xffff_ffff
  {
    hide F, H, I;
  }

  lemma MixH(i: nat, b: Word, c: Word, d: Word)
    requires 32 <= i < 48
    ensures Mix(i, b, c, d) == (b ^ c ^ d) & 0xffff_ffff
  {
    hide F, G, I;
  }

  lemma MixI(i: nat, b: Word, c: Word, d: Word)
    requires 48 <= i
    ensures Mix(i, b, c, d) == (c ^ (b | !d)) & 0xffff_ffff
  {
    hide F, G, H;
  }

  lemma Start()
    ensures Steps(IV(), Padded1(), 0) == IV()
  {
  }

  lemma Steps8()
    ensures Steps(IV(), Padded1(), 8) == Hash(0xc73741ef, 0x928d99f6, 0x207dc67b, 0x8bac3051)
  {
    hide Steps, Padded1, Mix;
    Start();
    MixF(0, 0xefcdab89, 0x98badcfe, 0x10325476);
    On(0, 0x67452301, 0xefcdab89, 0x98badcfe, 0x10325476, 0x98badcfe, 0x80636261,
      0xd76aa478, 7, 0x191e3f5f, 0xf088e3d7, 0x57ce06d8, 0xe7036c2b, 0xd6d117b4);
    MixF(1, 0xd6d117b4, 0xefcdab89, 0x98badcfe);
    On(1, 0x10325476, 0xd6d117b4, 0xefcdab89, 0x98badcfe, 0xceebcbca, 0x0,
      0xe8c7b756, 12, 0xceebcbca, 0xb7b38320, 0xc7e5d796, 0x5d796c7e, 0x344a8432);
    MixF(2, 0x344a8432, 0xd6d117b4, 0xefcdab89);
    On(2, 0x98badcfe, 0x344a8432, 0xd6d117b4, 0xefcdab89, 0xdfc52fb9, 0x0,
      0x242070db, 17, 0xdfc52fb9, 0x03e5a094, 0x9ca07d92, 0xfb253940, 0x2f6fbd72);
    MixF(3, 0x2f6fbd72, 0x344a8432, 0xd6d117b4);
    On(3, 0xefcdab89, 0x2f6fbd72, 0x344a8432, 0xd6d117b4, 0xf4da86b6, 0x0,
      0xc1bdceee, 22, 0xf4da86b6, 0xb69855a4, 0xa666012d, 0x4b699980, 0x7ad956f2);
    MixF(4, 0x7ad956f2, 0x2f6fbd72, 0x344a8432);
    On(4, 0xd6d117b4, 0x7ad956f2, 0x2f6fbd72, 0x344a8432, 0x2e4b9472, 0x0,
      0xf57c0faf, 7, 0x2e4b9472, 0x23c7a421, 0xfa98bbd5, 0x4c5deafd, 0xc73741ef);
    MixF(5, 0xc73741ef, 0x7ad956f2, 0x2f6fbd72);
    On(5, 0x344a8432, 0xc73741ef, 0x7ad956f2, 0x2f6fbd72, 0x6a59fcf2, 0x0,
      0x4787c62a, 12, 0x6a59fcf2, 0xb1e1c31c, 0xe62c474e, 0xc474ee62, 0x8bac3051);
    MixF(6, 0x8bac3051, 0xc73741ef, 0x7ad956f2);
    On(6, 0x2f6fbd72, 0x8bac3051, 0xc73741ef, 0x7ad956f2, 0xf37546e3, 0x0,
      0xa8304613, 17, 0xf37546e3, 0x9ba58cf6, 0xcb154a68, 0x94d1962a, 0x207dc67b);
    MixF(7, 0x207dc67b, 0x8bac3051, 0xc73741ef);
    On(7, 0x7ad956f2, 0x207dc67b, 0x8bac3051, 0xc73741ef, 0xc72e01d5, 0x0,
      0xfd469501, 22, 0xc72e01d5, 0xc47496d6, 0x3f4dedc8, 0x720fd37b, 0x928d99f6);
  }

  lemma Steps16()
    ensures Steps(IV(), Padded1(), 16) == Hash(0xdda9b9a6, 0x72aff2e0, 0xe396856b, 0xa1051895)
  {
    hide Steps, Padded1, Mix, IV;
    Steps8();
    MixF(8, 0x928d99f6, 0x207dc67b, 0x8bac3051);
    On(8, 0xc73741ef, 0x928d99f6, 0x207dc67b, 0x8bac3051, 0x092da073, 0x0,
      0x698098d8, 7, 0x092da073, 0x72ae394b, 0x39e57b3a, 0xf2bd9d1c, 0x854b3712);
    MixF(9, 0x854b3712, 0x928d99f6, 0x207dc67b);
    On(9, 0x8bac3051, 0x854b3712, 0x928d99f6, 0x207dc67b, 0xa03dd17b, 0x0,
      0x8b44f7af, 12, 0xa03dd17b, 0x2b82c92a, 0xb72ef97b, 0xef97bb72, 0x74e2f284);
    MixF(10, 0x74e2f284, 0x854b3712, 0x928d99f6);
    On(10, 0x207dc67b, 0x74e2f284, 0x854b3712, 0x928d99f6, 0x864f3b72, 0x0,
      0xffff5bb1, 17, 0x864f3b72, 0x864e9723, 0xa6cc5d9e, 0xbb3d4d98, 0x3020401c);
    MixF(11, 0x3020401c, 0x74e2f284, 0x854b3712);
    On(11, 0x928d99f6, 0x3020401c, 0x74e2f284, 0x854b3712, 0xb56b7706, 0x0,
      0x895cd7be, 22, 0xb56b7706, 0x3ec84ec4, 0xd155e8ba, 0x2eb4557a, 0x5ed49596);
    MixF(12, 0x5ed49596, 0x3020401c, 0x74e2f284);
    On(12, 0x854b3712, 0x5ed49596, 0x3020401c, 0x74e2f284, 0x30226214, 0x0,
      0x6b901122, 7, 0x30226214, 0x9bb27336, 0x20fdaa48, 0x7ed52410, 0xdda9b9a6);
    MixF(13, 0xdda9b9a6, 0x5ed49596, 0x3020401c);
    On(13, 0x74e2f284, 0xdda9b9a6, 0x5ed49596, 0x3020401c, 0x7c80d19e, 0x0,
      0xfd987193, 12, 0x7c80d19e, 0x7a194331, 0xeefc35b5, 0xc35b5eef, 0xa1051895);
    MixF(14, 0xa1051895, 0xdda9b9a6, 0x5ed49596);
    On(14, 0x3020401c, 0xa1051895, 0xdda9b9a6, 0x5ed49596, 0xdfd19d86, 0x18,
      0xa679438e, 17, 0xdfd19d9e, 0x864ae12c, 0xb66b2148, 0x42916cd6, 0xe396856b);
    MixF(15, 0xe396856b, 0xa1051895, 0xdda9b9a6);
    On(15, 0x5ed49596, 0xe396856b, 0xa1051895, 0xdda9b9a6, 0xbd2d3885, 0x0,
      0x49b40821, 22, 0xbd2d3885, 0x06e140a6, 0x65b5d63c, 0x8f196d75, 0x72aff2e0);
  }

  lemma Steps24()
    ensures Steps(IV(), Padded1(), 24) == Hash(0x59a8ffda, 0x47092c07, 0xabfc7920, 0x6d002f1e)
  {
    hide Steps, Padded1, Mix, IV;
    Steps16();
    MixG(16, 0x72aff2e0, 0xe396856b, 0xa1051895);
    On(16, 0xdda9b9a6, 0x72aff2e0, 0xe396856b, 0xa1051895, 0x629795ea, 0x0,
      0xf61e2562, 5, 0x629795ea, 0x58b5bb4c, 0x365f74f2, 0xcbee9e46, 0x3e9e9126);
    MixG(17, 0x3e9e9126, 0x72aff2e0, 0xe396856b);
    On(17, 0xa1051895, 0x3e9e9126, 0x72aff2e0, 0xe396856b, 0x32bff3a2, 0x0,
      0xc040b340, 9, 0x32bff3a2, 0xf300a6e2, 0x9405bf77, 0x0b7eef28, 0x4a1d804e);
    MixG(18, 0x4a1d804e, 0x3e9e9126, 0x72aff2e0);
    On(18, 0xe396856b, 0x4a1d804e, 0x3e9e9126, 0x72aff2e0, 0x4e1d8146, 0x0,
      0x265e5a51, 14, 0x4e1d8146, 0x747bdb97, 0x58126102, 0x98409604, 0xe25e1652);
    MixG(19, 0xe25e1652, 0x4a1d804e, 0x3e9e9126);
    On(19, 0x72aff2e0, 0xe25e1652, 0x4a1d804e, 0x3e9e9126, 0x621f104a, 0x80636261,
      0xe9b6c7aa, 20, 0xe28272ab, 0xcc393a55, 0x3ee92d35, 0xd353ee92, 0xb5b204e4);
    MixG(20, 0xb5b204e4, 0xe25e1652, 0x4a1d804e);
    On(20, 0x3e9e9126, 0xb5b204e4, 0xe25e1652, 0x4a1d804e, 0xa0521654, 0x0,
      0xd62f105d, 5, 0xa0521654, 0x768126b1, 0xb51fb7d7, 0xa3f6faf6, 0x59a8ffda);
    MixG(21, 0x59a8ffda, 0xb5b204e4, 0xe25e1652);
    On(21, 0x4a1d804e, 0x59a8ffda, 0xb5b204e4, 0xe25e1652, 0x55a816f6, 0x0,
      0x02441453, 9, 0x55a816f6, 0x57ec2b49, 0xa209ab97, 0x13572f44, 0x6d002f1e);
    MixG(22, 0x6d002f1e, 0x59a8ffda, 0xb5b204e4);
    On(22, 0xe25e1652, 0x6d002f1e, 0x59a8ffda, 0xb5b204e4, 0x6d08ff1e, 0x0,
      0xd8a1e681, 14, 0x6d08ff1e, 0x45aae59f, 0x2808fbf1, 0x3efc4a02, 0xabfc7920);
    MixG(23, 0xabfc7920, 0x6d002f1e, 0x59a8ffda);
    On(23, 0xb5b204e4, 0xabfc7920, 0x6d002f1e, 0x59a8ffda, 0x2da87904, 0x0,
      0xe7d3fbc8, 20, 0x2da87904, 0x157c74cc, 0xcb2e79b0, 0x9b0cb2e7, 0x47092c07);
  }

  lemma Steps32()
    ensures Steps(IV(), Padded1(), 32) == Hash(0x790a77fb, 0x726342d3, 0xa62884aa, 0x9f47e4f8)
  {
    hide Steps, Padded1, Mix, IV;
    Steps24();
    MixG(24, 0x47092c07, 0xabfc7920, 0x6d002f1e);
    On(24, 0x59a8ffda, 0x47092c07, 0xabfc7920, 0x6d002f1e, 0xc7fc7c26, 0x0,
      0x21e1cde6, 5, 0xc7fc7c26, 0xe9de4a0c, 0x438749e6, 0x70e93cc8, 0xb7f268cf);
    MixG(25, 0xb7f268cf, 0x47092c07, 0xabfc7920);
    On(25, 0x6d002f1e, 0xb7f268cf, 0x47092c07, 0xabfc7920, 0xe7f16c07, 0x18,
      0xc33707d6, 9, 0xe7f16c1f, 0xab2873f5, 0x1828a313, 0x51462630, 0x09388eff);
    MixG(26, 0x09388eff, 0xb7f268cf, 0x47092c07);
    On(26, 0xabfc7920, 0x09388eff, 0xb7f268cf, 0x47092c07, 0xb1fa4ccf, 0x0,
      0xf4d50d87, 14, 0xb1fa4ccf, 0xa6cf5a56, 0x52cbd376, 0xf4dd94b2, 0xfe1623b1);
    MixG(27, 0xfe1623b1, 0x09388eff, 0xb7f268cf);
    On(27, 0x47092c07, 0xfe1623b1, 0x09388eff, 0xb7f268cf, 0xbe1aa6b1, 0x0,
      0x455a14ed, 20, 0xbe1aa6b1, 0x0374bb9e, 0x4a7de7a5, 0x7a54a7de, 0x786acb8f);
    MixG(28, 0x786acb8f, 0xfe1623b1, 0x09388eff);
    On(28, 0xb7f268cf, 0x786acb8f, 0xfe1623b1, 0x09388eff, 0xfe2eab8f, 0x0,
      0xa9e3e905, 5, 0xfe2eab8f, 0xa8129494, 0x6004fd63, 0x009fac6c, 0x790a77fb);
    MixG(29, 0x790a77fb, 0x786acb8f, 0xfe1623b1);
    On(29, 0x09388eff, 0x790a77fb, 0x786acb8f, 0xfe1623b1, 0x786aebbf, 0x0,
      0xfcefa3f8, 9, 0x786aebbf, 0x755a8fb7, 0x7e931eb6, 0x263d6cfd, 0x9f47e4f8);
    MixG(30, 0x9f47e4f8, 0x790a77fb, 0x786acb8f);
    On(30, 0xfe1623b1, 0x9f47e4f8, 0x790a77fb, 0x786acb8f, 0x1942f4f8, 0x0,
      0x676f02d9, 14, 0x1942f4f8, 0x80b1f7d1, 0x7ec81b82, 0x06e09fb2, 0xa62884aa);
    MixG(31, 0xa62884aa, 0x9f47e4f8, 0x790a77fb);
    On(31, 0x786acb8f, 0xa62884aa, 0x9f47e4f8, 0x790a77fb, 0xa64d84aa, 0x0,
      0x8d2a4c8a, 20, 0xa64d84aa, 0x3377d134, 0xabe29cc3, 0xcc3abe29, 0x726342d3);
  }

  lemma Steps40()
    ensures Steps(IV(), Padded1(), 40) == Hash(0x21b117b9, 0x5a2f5ea5, 0x3575227e, 0x6e7429d5)
  {
    hide Steps, Padded1, Mix, IV;
    Steps32();
    MixH(32, 0x726342d3, 0xa62884aa, 0x9f47e4f8);
    On(32, 0x790a77fb, 0x726342d3, 0xa62884aa, 0x9f47e4f8, 0x4b0c2281, 0x0,
      0xfffa3942, 4, 0x4b0c2281, 0x4b065bc3, 0xc410d3be, 0x410d3bec, 0xb3707ebf);
    MixH(33, 0xb3707ebf, 0x726342d3, 0xa62884aa);
    On(33, 0x9f47e4f8, 0xb3707ebf, 0x726342d3, 0xa62884aa, 0x673bb8c6, 0x0,
      0x8771f681, 11, 0x673bb8c6, 0xeeadaf47, 0x8df5943f, 0xaca1fc6f, 0x60127b2e);
    MixH(34, 0x60127b2e, 0xb3707ebf, 0x726342d3);
    On(34, 0xa62884aa, 0x60127b2e, 0xb3707ebf, 0x726342d3, 0xa1014742, 0x0,
      0x6d9d6122, 16, 0xa1014742, 0x0e9ea864, 0xb4c72d0e, 0x2d0eb4c7, 0x8d212ff5);
    MixH(35, 0x8d212ff5, 0x60127b2e, 0xb3707ebf);
    On(35, 0x726342d3, 0x8d212ff5, 0x60127b2e, 0xb3707ebf, 0x5e432a64, 0x18,
      0xfde5380c, 23, 0x5e432a7c, 0x5c286288, 0xce8ba55b, 0xade745d2, 0x3b0875c7);
    MixH(36, 0x3b0875c7, 0x8d212ff5, 0x60127b2e);
    On(36, 0xb3707ebf, 0x3b0875c7, 0x8d212ff5, 0x60127b2e, 0xd63b211c, 0x0,
      0xa4beea44, 4, 0xd63b211c, 0x7afa0b60, 0x2e6a8a1f, 0xe6a8a1f2, 0x21b117b9);
    MixH(37, 0x21b117b9, 0x3b0875c7, 0x8d212ff5);
    On(37, 0x60127b2e, 0x21b117b9, 0x3b0875c7, 0x8d212ff5, 0x97984d8b, 0x0,
      0x4bdecfa9, 11, 0x97984d8b, 0xe3771d34, 0x43899862, 0x4cc3121c, 0x6e7429d5);
    MixH(38, 0x6e7429d5, 0x21b117b9, 0x3b0875c7);
    On(38, 0x8d212ff5, 0x6e7429d5, 0x21b117b9, 0x3b0875c7, 0x74cd4bab, 0x0,
      0xf6bb4b60, 16, 0x74cd4bab, 0x6b88970b, 0xf8a9c700, 0xc700f8a9, 0x3575227e);
    MixH(39, 0x3575227e, 0x6e7429d5, 0x21b117b9);
    On(39, 0x3b0875c7, 0x3575227e, 0x6e7429d5, 0x21b117b9, 0x7ab01c12, 0x0,
      0xbebfbc70, 23, 0x7ab01c12, 0x396fd882, 0x74784e49, 0x24ba3c27, 0x5a2f5ea5);
  }

  lemma Steps48()
    ensures Steps(IV(), Padded1(), 48) == Hash(0x7f2e507b, 0x7beb9700, 0x8fae6399, 0x99d9679d)
  {
    hide Steps, Padded1, Mix, IV;
    Steps40();
    MixH(40, 0x5a2f5ea5, 0x3575227e, 0x6e7429d5);
    On(40, 0x21b117b9, 0x5a2f5ea5, 0x3575227e, 0x6e7429d5, 0x012e550e, 0x0,
      0x289b7ec6, 4, 0x012e550e, 0x29c9d3d4, 0x4b7aeb8d, 0xb7aeb8d4, 0x11de1779);
    MixH(41, 0x11de1779, 0x5a2f5ea5, 0x3575227e);
    On(41, 0x6e7429d5, 0x11de1779, 0x5a2f5ea5, 0x3575227e, 0x7e846ba2, 0x80636261,
      0xeaa127fa, 11, 0xfee7ce03, 0xe988f5fd, 0x57fd1fd2, 0xe8fe92bf, 0xfadcaa38);
    MixH(42, 0xfadcaa38, 0x11de1779, 0x5a2f5ea5);
    On(42, 0x3575227e, 0xfadcaa38, 0x11de1779, 0x5a2f5ea5, 0xb12de3e4, 0x0,
      0xd4ef3085, 16, 0xb12de3e4, 0x861d1469, 0xbb9236e7, 0x36e7bb92, 0x31c465ca);
    MixH(43, 0x31c465ca, 0xfadcaa38, 0x11de1779);
    On(43, 0x5a2f5ea5, 0x31c465ca, 0xfadcaa38, 0x11de1779, 0xdac6d88b, 0x0,
      0x04881d05, 23, 0xdac6d88b, 0xdf4ef590, 0x397e5435, 0x1a9cbf2a, 0x4c6124f4);
    MixH(44, 0x4c6124f4, 0x31c465ca, 0xfadcaa38);
    On(44, 0x11de1779, 0x4c6124f4, 0x31c465ca, 0xfadcaa38, 0x8779eb06, 0x0,
      0xd9d4d039, 4, 0x8779eb06, 0x614ebb3f, 0x732cd2b8, 0x32cd2b87, 0x7f2e507b);
    MixH(45, 0x7f2e507b, 0x4c6124f4, 0x31c465ca);
    On(45, 0xfadcaa38, 0x7f2e507b, 0x4c6124f4, 0x31c465ca, 0x028b1145, 0x0,
      0xe6db99e5, 11, 0x028b1145, 0xe966ab2a, 0xe4435562, 0x1aab1722, 0x99d9679d);
    MixH(46, 0x99d9679d, 0x7f2e507b, 0x4c6124f4);
    On(46, 0x31c465ca, 0x99d9679d, 0x7f2e507b, 0x4c6124f4, 0xaa961312, 0x0,
      0x1fa27cf8, 16, 0xaa961312, 0xca38900a, 0xfbfcf5d4, 0xf5d4fbfc, 0x8fae6399);
    MixH(47, 0x8fae6399, 0x99d9679d, 0x7f2e507b);
    On(47, 0x4c6124f4, 0x8fae6399, 0x99d9679d, 0x7f2e507b, 0x6959547f, 0x0,
      0xc4ac5665, 23, 0x6959547f, 0x2e05aae4, 0x7a66cfd8, 0xec3d3367, 0x7beb9700);
  }

  lemma Steps56()
    ensures Steps(IV(), Padded1(), 56) == Hash(0x06cc5e8a, 0x3bfa2c27, 0x7d632dd0, 0x5b0d97aa)
  {
    hide Steps, Padded1, Mix, IV;
    Steps48();
    MixI(48, 0x7beb9700, 0x8fae6399, 0x99d9679d);
    On(48, 0x7f2e507b, 0x7beb9700, 0x8fae6399, 0x99d9679d, 0xf041fcfb, 0x80636261,
      0xf4292244, 6, 0x70a55f5c, 0x64ce81a0, 0xe3fcd21b, 0xff3486f8, 0x7b201df8);
    MixI(49, 0x7b201df8, 0x7beb9700, 0x8fae6399);
    On(49, 0x99d9679d, 0x7b201df8, 0x7beb9700, 0x8fae6399, 0x009a0afe, 0x0,
      0x432aff97, 10, 0x009a0afe, 0x43c50a95, 0xdd9e7232, 0x79c8cb76, 0xf4e8e96e);
    MixI(50, 0xf4e8e96e, 0x7b201df8, 0x7beb9700);
    On(50, 0x8fae6399, 0xf4e8e96e, 0x7b201df8, 0x7beb9700, 0x8fdcf407, 0x18,
      0xab9423a7, 15, 0x8fdcf41f, 0x3b7117c6, 0xcb1f7b5f, 0xbdafe58f, 0xb298cefd);
    MixI(51, 0xb298cefd, 0xf4e8e96e, 0x7b201df8);
    On(51, 0x7beb9700, 0xb298cefd, 0xf4e8e96e, 0x7b201df8, 0x42370791, 0x0,
      0xfc93a039, 21, 0x42370791, 0x3ecaa7ca, 0xbab63eca, 0xd95756c7, 0x8bf025c4);
    MixI(52, 0x8bf025c4, 0xb298cefd, 0xf4e8e96e);
    On(52, 0x7b201df8, 0x8bf025c4, 0xb298cefd, 0xf4e8e96e, 0x396ff928, 0x0,
      0x655b59c3, 6, 0x396ff928, 0x9ecb52eb, 0x19eb70e3, 0x7adc38c6, 0x06cc5e8a);
    MixI(53, 0x06cc5e8a, 0x8bf025c4, 0xb298cefd);
    On(53, 0xf4e8e96e, 0x06cc5e8a, 0x8bf025c4, 0xb298cefd, 0xc41f5a4e, 0x0,
      0x8f0ccc92, 10, 0xc41f5a4e, 0x532c26e0, 0x4815104e, 0x54413920, 0x5b0d97aa);
    MixI(54, 0x5b0d97aa, 0x06cc5e8a, 0x8bf025c4);
    On(54, 0xb298cefd, 0x5b0d97aa, 0x06cc5e8a, 0x8bf025c4, 0x79c38131, 0x0,
      0xffeff47d, 15, 0x79c38131, 0x79b375ae, 0x2c4c44ab, 0x22559626, 0x7d632dd0);
    MixI(55, 0x7d632dd0, 0x5b0d97aa, 0x06cc5e8a);
    On(55, 0x8bf025c4, 0x7d632dd0, 0x5b0d97aa, 0x06cc5e8a, 0xa67e3a5f, 0x0,
      0x85845dd1, 21, 0xa67e3a5f, 0x2c029830, 0xb7f2bdf4, 0xbe96fe57, 0x3bfa2c27);
  }

  lemma Steps64()
    ensures Steps(IV(), Padded1(), 64) == Hash(0x310ade8f, 0xc08226b3, 0xe484b9d8, 0x624d8cb2)
  {
    hide Steps, Padded1, Mix, IV;
    Steps56();
    MixI(56, 0x3bfa2c27, 0x7d632dd0, 0x5b0d97aa);
    On(56, 0x06cc5e8a, 0x3bfa2c27, 0x7d632dd0, 0x5b0d97aa, 0xc29941a7, 0x0,
      0x6fa87e4f, 6, 0xc29941a7, 0x3241bff6, 0x390e1e80, 0x4387a00e, 0x7f81cc35);
    MixI(57, 0x7f81cc35, 0x3bfa2c27, 0x7d632dd0);
    On(57, 0x5b0d97aa, 0x7f81cc35, 0x3bfa2c27, 0x7d632dd0, 0xc467f218, 0x0,
      0xfe2ce6e0, 10, 0xc467f218, 0xc294d8f8, 0x1da270a2, 0x89c28876, 0x094454ab);
    MixI(58, 0x094454ab, 0x7f81cc35, 0x3bfa2c27);
    On(58, 0x7d632dd0, 0x094454ab, 0x7f81cc35, 0x3bfa2c27, 0xb2c41bce, 0x0,
      0xa3014314, 15, 0xb2c41bce, 0x55c55ee2, 0xd3288cb2, 0x46596994, 0x4f9dbe3f);
    MixI(59, 0x4f9dbe3f, 0x094454ab, 0x7f81cc35);
    On(59, 0x3bfa2c27, 0x4f9dbe3f, 0x094454ab, 0x7f81cc35, 0xc6bbeb54, 0x0,
      0x4e0811a1, 21, 0xc6bbeb54, 0x14c3fcf5, 0x50be291c, 0x238a17c5, 0x7327d604);
    MixI(60, 0x7327d604, 0x4f9dbe3f, 0x094454ab);
    On(60, 0x7f81cc35, 0x7327d604, 0x4f9dbe3f, 0x094454ab, 0xb822416b, 0x0,
      0xf7537e82, 6, 0xb822416b, 0xaf75bfed, 0x2ef78c22, 0xbde3088b, 0x310ade8f);
    MixI(61, 0x310ade8f, 0x7327d604, 0x4f9dbe3f);
    On(61, 0x094454ab, 0x310ade8f, 0x7327d604, 0x4f9dbe3f, 0xc24d09cb, 0x0,
      0xbd3af235, 10, 0xc24d09cb, 0x7f87fc00, 0x88cc50ab, 0x3142ae23, 0x624d8cb2);
    MixI(62, 0x624d8cb2, 0x310ade8f, 0x7327d604);
    On(62, 0x4f9dbe3f, 0x624d8cb2, 0x310ade8f, 0x7327d604, 0xdfd77374, 0x0,
      0x2ad7d2bb, 15, 0xdfd77374, 0x0aaf462f, 0x5a4d046e, 0x82372d26, 0xe484b9d8);
    MixI(63, 0xe484b9d8, 0x624d8cb2, 0x310ade8f);
    On(63, 0x7327d604, 0xe484b9d8, 0x624d8cb2, 0x310ade8f, 0x8cb8354a, 0x0,
      0xeb86d391, 21, 0x8cb8354a, 0x783f08db, 0xeb66dedf, 0xdbfd6cdb, 0xc08226b3);
  }

  lemma Sums()
    ensures Compress(IV(), Padded1()) == Hash(0x98500190, 0xb04fd23c, 0x7d3f96d6, 0x727fe128)
  {
    hide Steps, Padded1;
    Steps64();
  }

  lemma OutputIs()
    ensures Output(Hash(0x98500190, 0xb04fd23c, 0x7d3f96d6, 0x727fe128)) ==
            [0x90, 0x01, 0x50, 0x98, 0x3c, 0xd2, 0x4f, 0xb0,
             0xd6, 0x96, 0x3f, 0x7d, 0x28, 0xe1, 0x7f, 0x72]
  {
  }

  /** MD5("abc") = 900150983cd24fb0d6963f7d28e17f72. */
  lemma DigestOfAbc()
    ensures Digest([0x61, 0x62, 0x63]) ==
            [0x90, 0x01, 0x50, 0x98, 0x3c, 0xd2, 0x4f, 0xb0,
             0xd6, 0x96, 0x3f, 0x7d, 0x28, 0xe1, 0x7f, 0x72]
  {
    hide Compress, Output, IV, Padded1, Padded;
    PaddedIs();
    Sums();
    OutputIs();
    var p := Padded1();
    assert p[..64] == p && p[64..] == [];
    assert Blocks(IV(), p) == Blocks(Compress(IV(), p), []);
    BlocksShort(Compress(IV(), p), []);
  }
}
