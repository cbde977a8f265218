/** Passwords on the way to and from a RADIUS server: hidden by a chain of hashes over blocks of 16 bytes
    (RFC 2865 section 5.2, RFC 2868 section 3.5), in place and for any hash. */
module RadiusPassword {
  import opened Common

  type Octet = Byte
  type Octets = seq<Octet>

  const BLOCK := 16

  /** Any hash will do, as long as it gives 16 bytes. */
  type Hash = Octets -> Octets

  ghost predicate Hashes(hash: Hash) { forall x :: |hash(x)| == BLOCK }

  // ---- exclusive or ----

  function Pow2(k: nat): nat { if k == 0 then 1 else 2 * Pow2(k - 1) }

  /** Bitwise exclusive or of the low `k` bits. */
  function XorBits(x: nat, y: nat, k: nat): (z: nat)
    ensures z < Pow2(k)
  {
    if k == 0 then 0 else 2 * XorBits(x / 2, y / 2, k - 1) + if x % 2 != y % 2 then 1 else 0
  }

  lemma {:induction false} XorBack(x: nat, y: nat, k: nat)
    requires x < Pow2(k)
    ensures XorBits(XorBits(x, y, k), y, k) == x
    decreases k
  {
    if k > 0 {
      var h, z := XorBits(x / 2, y / 2, k - 1), XorBits(x, y, k);
      XorHalves(h, if x % 2 != y % 2 then 1 else 0);
      assert z / 2 == h && z % 2 == if x % 2 != y % 2 then 1 else 0;
      XorBack(x / 2, y / 2, k - 1);
    }
  }

  lemma XorHalves(h: nat, bit: nat)
    requires bit < 2
    ensures (2 * h + bit) / 2 == h && (2 * h + bit) % 2 == bit
  {
  }

  lemma EightBits()
    ensures Pow2(8) == 0x100
  {
    assert Pow2(4) == 16;
    assert Pow2(8) == 16 * Pow2(4);
  }

  function XorByte(x: Byte, y: Byte): Byte {
    EightBits();
    XorBits(x, y, 8)
  }

  // ---- the chain ----

  function Xor(x: Octets, y: Octets): (z: Octets)
    requires |x| == |y|
    ensures |z| == |x| && forall i :: 0 <= i < |x| ==> z[i] == XorByte(x[i], y[i])
  {
    seq(|x|, i requires 0 <= i < |x| => XorByte(x[i], y[i]))
  }

  lemma XorTwice(x: Octets, y: Octets)
    requires |x| == |y|
    ensures Xor(Xor(x, y), y) == x
  {
    var z := Xor(Xor(x, y), y);
    forall i | 0 <= i < |x|
      ensures z[i] == x[i]
    {
      EightBits();
      XorBack(x[i], y[i], 8);
    }
  }

  /** Each block is xor-ed with the hash of the secret and the hidden block before it. */
  ghost function Seal(hash: Hash, secret: Octets, before: Octets, p: Octets): (c: Octets)
    requires Hashes(hash) && |p| % BLOCK == 0
    ensures |c| == |p|
    decreases |p|
  {
    if p == [] then []
    else
      var block := Xor(p[..BLOCK], hash(secret + before));
      block + Seal(hash, secret, block, p[BLOCK..])
  }

  ghost function Open(hash: Hash, secret: Octets, before: Octets, c: Octets): (p: Octets)
    requires Hashes(hash) && |c| % BLOCK == 0
    ensures |p| == |c|
    decreases |c|
  {
    if c == [] then []
    else Xor(c[..BLOCK], hash(secret + before)) + Open(hash, secret, c[..BLOCK], c[BLOCK..])
  }

  /** Opening undoes sealing. */
  lemma {:induction false} OpenSeal(hash: Hash, secret: Octets, before: Octets, p: Octets)
    requires Hashes(hash) && |p| % BLOCK == 0
    ensures Open(hash, secret, before, Seal(hash, secret, before, p)) == p
    decreases |p|
  {
    if p != [] {
      var key := hash(secret + before);
      var block := Xor(p[..BLOCK], key);
      var c := Seal(hash, secret, before, p);
      assert c[..BLOCK] == block && c[BLOCK..] == Seal(hash, secret, block, p[BLOCK..]);
      XorTwice(p[..BLOCK], key);
      OpenSeal(hash, secret, block, p[BLOCK..]);
      assert p == p[..BLOCK] + p[BLOCK..];
    }
  }

  /** What is hashed with the secret for the block at `n`. */
  function Link(before: Octets, c: Octets, n: nat): Octets
    requires n <= |c| && (n > 0 ==> n >= BLOCK)
  {
    if n == 0 then before else c[n - BLOCK..n]
  }

  lemma Behind(x: Octets, y: Octets, i: nat, j: nat)
    requires |x| <= i <= j <= |x| + |y|
    ensures (x + y)[i..j] == y[i - |x|..j - |x|]
  {
  }

  lemma Later(c: Octets, n: nat, j: nat)
    requires n <= j && n + j <= |c|
    ensures c[n..][j - n..j] == c[j..n + j]
  {
  }

  lemma OpenUnfold(hash: Hash, secret: Octets, before: Octets, c: Octets)
    requires Hashes(hash) && |c| % BLOCK == 0 && c != []
    ensures Open(hash, secret, before, c) ==
            Xor(c[..BLOCK], hash(secret + before)) + Open(hash, secret, c[..BLOCK], c[BLOCK..])
  {
    hide Xor;
  }

  /** Any block can be opened on its own. */
  lemma {:induction false} OpenAt(hash: Hash, secret: Octets, before: Octets, c: Octets, n: nat)
    requires Hashes(hash) && |c| % BLOCK == 0 && n % BLOCK == 0 && n < |c|
    ensures Open(hash, secret, before, c)[n..n + BLOCK] == Xor(c[n..n + BLOCK], hash(secret + Link(before, c, n)))
    decreases n
  {
    hide Open, Xor;
    OpenUnfold(hash, secret, before, c);
    var x, rest := Xor(c[..BLOCK], hash(secret + before)), Open(hash, secret, c[..BLOCK], c[BLOCK..]);
    if n == 0 {
      assert (x + rest)[0..BLOCK] == x;
    } else {
      OpenAt(hash, secret, c[..BLOCK], c[BLOCK..], n - BLOCK);
      Behind(x, rest, n, n + BLOCK);
      Later(c, BLOCK, n);
      LinkLater(before, c, n);
    }
  }

  lemma LinkLater(before: Octets, c: Octets, n: nat)
    requires |c| % BLOCK == 0 && n % BLOCK == 0 && 0 < n < |c|
    ensures n >= BLOCK && (n > BLOCK ==> n >= 2 * BLOCK)
    ensures Link(c[..BLOCK], c[BLOCK..], n - BLOCK) == Link(before, c, n)
  {
    if n > BLOCK {
      RoomForBlock(BLOCK, n);
      Behind(c[..BLOCK], c[BLOCK..], n - BLOCK, n);
      assert c[..BLOCK] + c[BLOCK..] == c;
    }
  }

  lemma SealUnfold(hash: Hash, secret: Octets, before: Octets, p: Octets)
    requires Hashes(hash) && |p| % BLOCK == 0 && p != []
    ensures var block := Xor(p[..BLOCK], hash(secret + before));
            Seal(hash, secret, before, p) == block + Seal(hash, secret, block, p[BLOCK..])
  {
    hide Xor;
  }

  lemma {:induction false} SealAt(hash: Hash, secret: Octets, before: Octets, p: Octets, n: nat)
    requires Hashes(hash) && |p| % BLOCK == 0 && n % BLOCK == 0 && n < |p|
    ensures var c := Seal(hash, secret, before, p);
            c[n..n + BLOCK] == Xor(p[n..n + BLOCK], hash(secret + Link(before, c, n)))
    decreases n
  {
    hide Seal, Xor;
    SealUnfold(hash, secret, before, p);
    var c := Seal(hash, secret, before, p);
    var block := Xor(p[..BLOCK], hash(secret + before));
    var rest := Seal(hash, secret, block, p[BLOCK..]);
    if n == 0 {
      assert (block + rest)[0..BLOCK] == block;
    } else {
      SealAt(hash, secret, block, p[BLOCK..], n - BLOCK);
      Behind(block, rest, n, n + BLOCK);
      Later(p, BLOCK, n);
      assert c[..BLOCK] == block && c[BLOCK..] == rest;
      LinkLater(before, c, n);
    }
  }

  function Padding(n: nat): (k: nat)
    ensures k < BLOCK && (n + k) % BLOCK == 0
  {
    if n % BLOCK == 0 then 0 else BLOCK - n % BLOCK
  }

  function Padded(p: Octets): (q: Octets)
    ensures |q| % BLOCK == 0 && |q| >= |p|
  {
    p + Zeros(Padding(|p|))
  }

  // ---- hiding a user password ----

  /** The loop in radiussend: the password is padded and hidden where it is, block by block. */
  method HidePassword(pass: array<Octet>, len: nat, hash: Hash, secret: Octets, auth: Octets) returns (pl: nat)
    requires Hashes(hash) && |auth| == 16 && len + Padding(len) <= pass.Length
    modifies pass
    ensures pl == len + Padding(len)
    ensures pass[..pl] == Seal(hash, secret, auth, Padded(old(pass[..len])))
  {
    hide Seal;
    ghost var word := pass[..len];
    pl := len;
    while pl % BLOCK != 0
      invariant len <= pl <= len + Padding(len) && pass[..pl] == word + Zeros(pl - len)
      decreases len + Padding(len) - pl
    {
      StillShort(len, pl);
      pass[pl] := 0;
      pl := pl + 1;
    }
    FullyPadded(len, pl);
    HideBlocks(pass, pl, hash, secret, auth);
  }

  method HideBlocks(pass: array<Octet>, pl: nat, hash: Hash, secret: Octets, auth: Octets)
    requires Hashes(hash) && pl <= pass.Length && pl % BLOCK == 0
    modifies pass
    ensures pass[..pl] == Seal(hash, secret, auth, old(pass[..pl]))
  {
    hide Seal, Half;
    ghost var plain := pass[..pl];
    ghost var c := Seal(hash, secret, auth, plain);
    var p := 0;
    HalfStart(pass[..], c, plain);
    while p < pl
      invariant p <= pl && p % BLOCK == 0 && (p > 0 ==> p >= BLOCK) && Half(pass[..], c, plain, p)
      decreases pl - p
    {
      ghost var was := pass[..];
      RoomForBlock(p, pl);
      SealAt(hash, secret, auth, plain, p);
      HalfLink(was, c, plain, p, auth);
      var digest := hash(secret + if p > 0 then pass[p - BLOCK..p] else auth);
      XorInPlace(pass, p, digest);
      HalfStep(was, pass[..], c, plain, p);
      p := p + BLOCK;
    }
    HalfEnd(pass[..], c, plain);
  }

  /** Up to `p` the password is hidden, from there on it is not yet. */
  ghost predicate Half(now: Octets, c: Octets, plain: Octets, p: nat) {
    && p <= |c| == |plain| <= |now|
    && forall j :: 0 <= j < |c| ==> now[j] == if j < p then c[j] else plain[j]
  }

  lemma HalfStart(now: Octets, c: Octets, plain: Octets)
    requires |c| == |plain| <= |now| && now[..|plain|] == plain
    ensures Half(now, c, plain, 0)
  {
    assert forall j :: 0 <= j < |plain| ==> now[j] == now[..|plain|][j];
  }

  lemma HalfLink(now: Octets, c: Octets, plain: Octets, p: nat, auth: Octets)
    requires Half(now, c, plain, p) && p + BLOCK <= |c| && (p > 0 ==> p >= BLOCK)
    ensures (if p > 0 then now[p - BLOCK..p] else auth) == Link(auth, c, p) && now[p..p + BLOCK] == plain[p..p + BLOCK]
  {
  }

  lemma HalfStep(was: Octets, now: Octets, c: Octets, plain: Octets, p: nat)
    requires Half(was, c, plain, p) && p + BLOCK <= |c| && |now| == |was|
    requires now[..p] == was[..p] && now[p + BLOCK..] == was[p + BLOCK..] && now[p..p + BLOCK] == c[p..p + BLOCK]
    ensures Half(now, c, plain, p + BLOCK)
  {
    forall j | 0 <= j < |c|
      ensures now[j] == if j < p + BLOCK then c[j] else plain[j]
    {
      if j < p {
        assert now[j] == now[..p][j] && was[j] == was[..p][j];
      } else if j < p + BLOCK {
        assert now[j] == now[p..p + BLOCK][j - p] && c[j] == c[p..p + BLOCK][j - p];
      } else {
        assert now[j] == now[p + BLOCK..][j - p - BLOCK] && was[j] == was[p + BLOCK..][j - p - BLOCK];
      }
    }
  }

  lemma HalfEnd(now: Octets, c: Octets, plain: Octets)
    requires Half(now, c, plain, |c|)
    ensures now[..|c|] == c
  {
  }

  lemma RoomForBlock(p: nat, pl: nat)
    requires p < pl && p % BLOCK == 0 && pl % BLOCK == 0
    ensures p + BLOCK <= pl
  {
  }

  lemma StillShort(len: nat, pl: nat)
    requires len <= pl <= len + Padding(len) && pl % BLOCK != 0
    ensures pl < len + Padding(len)
  {
  }

  lemma FullyPadded(len: nat, pl: nat)
    requires len <= pl <= len + Padding(len) && pl % BLOCK == 0
    ensures pl == len + Padding(len)
  {
  }

  /** One block is xor-ed with a hash. */
  method XorInPlace(pass: array<Octet>, p: nat, digest: Octets)
    requires p + BLOCK <= pass.Length && |digest| == BLOCK
    modifies pass
    ensures pass[..p] == old(pass[..p]) && pass[p + BLOCK..] == old(pass[p + BLOCK..])
    ensures pass[p..p + BLOCK] == Xor(old(pass[p..p + BLOCK]), digest)
  {
    hide XorByte;
    var i := 0;
    ghost var was := pass[p..p + BLOCK];
    while i < BLOCK
      invariant 0 <= i <= BLOCK
      invariant pass[..p] == old(pass[..p]) && pass[p + i..] == old(pass[p + i..])
      invariant forall j :: 0 <= j < i ==> pass[p + j] == XorByte(was[j], digest[j])
    {
      pass[p + i] := XorByte(pass[p + i], digest[i]);
      i := i + 1;
    }
  }

  /** Without trailing zeros. */
  function Stripped(p: Octets): Octets { if p != [] && p[|p| - 1] == 0 then Stripped(p[..|p| - 1]) else p }

  lemma {:induction false} StripZeros(p: Octets, k: nat)
    requires p != [] ==> p[|p| - 1] != 0
    ensures Stripped(p + Zeros(k)) == p
    decreases k
  {
    if k > 0 {
      assert (p + Zeros(k))[..|p| + k - 1] == p + Zeros(k - 1);
      StripZeros(p, k - 1);
    } else {
      assert p + Zeros(0) == p;
    }
  }

  /** The server gets the password back: a C string has no zero byte, so the padding comes off. */
  lemma PasswordComesBack(hash: Hash, secret: Octets, auth: Octets, word: Octets)
    requires Hashes(hash) && 0 !in word
    ensures Stripped(Open(hash, secret, auth, Seal(hash, secret, auth, Padded(word)))) == word
  {
    OpenSeal(hash, secret, auth, Padded(word));
    StripZeros(word, Padding(|word|));
  }

  // ---- a tunnel password ----

  /** RFC 2868: a length byte, the password and padding, hidden with the salt in the first link. */
  ghost function SealTunnel(hash: Hash, secret: Octets, auth: Octets, salt: Octets, n: Octet, word: Octets): Octets
    requires Hashes(hash) && |salt| == 2 && n == |word|
  {
    salt + Seal(hash, secret, auth + salt, Padded([n] + word))
  }

  /** What the code does with an attribute of `len` bytes: nothing, or a password of so many bytes. The last block
      may reach beyond the buffer. */
  datatype Result = Short | Empty | TooLong | Beyond | Decoded(word: Octets)

  const LONGEST := 239

  /** Whole blocks that cover `n` bytes. */
  function Cover(n: nat): (k: nat)
    ensures k % BLOCK == 0 && n <= k < n + BLOCK
  {
    n + Padding(n)
  }

  ghost function Decode(hash: Hash, secret: Octets, auth: Octets, buf: Octets, len: nat): (r: Result)
    requires Hashes(hash) && len <= |buf|
  {
    if len < 2 then Short
    else if len <= 3 then Empty
    else
      var n := XorByte(buf[2], hash(secret + (auth + buf[..2]))[0]);
      if n >= len - 2 then TooLong
      else if 2 + Cover(len - 2) > |buf| then Beyond
      else
        var p := Open(hash, secret, auth + buf[..2], buf[2..2 + Cover(len - 2)]);
        Decoded(p[1..1 + if n > LONGEST then LONGEST else n])
  }

  /** Every password of 1 to 239 bytes is recovered, whatever the hash, the salt and the bytes behind it. */
  lemma TunnelPasswordComesBack(hash: Hash, secret: Octets, auth: Octets, salt: Octets, n: Octet, word: Octets,
      buf: Octets)
    requires Hashes(hash) && |salt| == 2 && n == |word| && 1 <= |word| <= LONGEST
    requires SealTunnel(hash, secret, auth, salt, n, word) <= buf
    ensures 3 < |SealTunnel(hash, secret, auth, salt, n, word)| <= 242
    ensures 2 + Cover(|SealTunnel(hash, secret, auth, salt, n, word)| - 2) <= |buf|
    ensures Decode(hash, secret, auth, buf, |SealTunnel(hash, secret, auth, salt, n, word)|) == Decoded(word)
  {
    hide Seal, Open, Padded, Cover, XorByte;
    var q := [n] + word;
    var c := Seal(hash, secret, auth + salt, Padded(q));
    var z := SealTunnel(hash, secret, auth, salt, n, word);
    OpenSeal(hash, secret, auth + salt, Padded(q));
    PaddedIs(q);
    FirstOpened(hash, secret, auth + salt, c);
    assert buf[..2] == buf[..|z|][..2] == salt;
    assert buf[2..2 + |c|] == buf[..|z|][2..] == c && buf[2] == c[0];
    assert Padded(q)[1..1 + |word|] == Padded(q)[..|q|][1..] == word;
    assert Padded(q)[0] == Padded(q)[..|q|][0];
  }

  lemma PaddedIs(q: Octets)
    ensures Padded(q)[..|q|] == q && Cover(|Padded(q)|) == |Padded(q)| && |Padded(q)| < |q| + BLOCK
    ensures |q| <= 240 ==> |Padded(q)| <= 240
  {
  }

  /** rad_tunnel_pwdecode: the password is opened in the buffer it came in, three bytes ahead of where it
      ends up, while hidden blocks behind it are still to be hashed. */
  method PwDecode(buf: array<Octet>, len0: nat, hash: Hash, secret: Octets, auth: Octets)
    returns (r: Option<nat>, len: nat)
    requires Hashes(hash) && len0 <= buf.Length && buf.Length >= 1
    modifies buf
    ensures match Decode(hash, secret, auth, old(buf[..]), len0)
            case Short => r == Some(0) && len == len0 && buf[..] == old(buf[..])
            case Empty => r == Some(0) && len == 0 && buf[..] == old(buf[..])[0 := 0]
            case TooLong => r == Some(0) && len == len0 && buf[..] == old(buf[..])
            case Beyond => r == None && buf[..] == old(buf[..])
            case Decoded(word) => r == Some(len) && len == |word| < buf.Length && buf[..len] == word && buf[len] == 0
  {
    hide Open, Padding, Cover, XorByte;
    if len0 < 2 { return Some(0), len0; }
    if len0 <= 3 {
      buf[0] := 0;
      return Some(0), 0;
    }
    var l, ctx := len0 - 2, secret + auth + buf[..2];
    assert ctx == secret + (auth + buf[..2]);
    var decodedlen := XorByte(buf[2], hash(ctx)[0]);
    if decodedlen >= l { return Some(0), len0; }
    if 2 + Cover(l) > buf.Length { return None, len0; }
    len := OpenPassword(buf, l, hash, secret, auth);
    r := Some(len);
  }

  /** The password itself, when the length it claims is plausible and the buffer holds its blocks. */
  method OpenPassword(buf: array<Octet>, l: nat, hash: Hash, secret: Octets, auth: Octets) returns (r: nat)
    requires Hashes(hash) && 0 < l && 2 + Cover(l) <= buf.Length
    requires XorByte(buf[2], hash(secret + (auth + buf[..2]))[0]) < l
    modifies buf
    ensures var p := Open(hash, secret, auth + old(buf[..2]), old(buf[2..2 + Cover(l)]));
            var n := XorByte(old(buf[2]), hash(secret + (auth + old(buf[..2])))[0]);
            && r == (if n > LONGEST then LONGEST else n) && r < buf.Length
            && buf[r] == 0 && buf[..r] == p[1..1 + r]
  {
    hide Open, Cover, XorByte;
    ghost var p := Open(hash, secret, auth + buf[..2], buf[2..2 + Cover(l)]);
    var ctx := secret + auth + buf[..2];
    assert ctx == secret + (auth + buf[..2]);
    var digest := hash(ctx);
    FirstOpened(hash, secret, auth + buf[..2], buf[2..2 + Cover(l)]);
    var decodedlen := XorByte(buf[2], digest[0]);
    OpenBlocks(buf, l, hash, secret, auth, digest);
    r := if decodedlen > LONGEST then LONGEST else decodedlen;
    Front(buf[..], p, Cover(l) - 1, r);
    buf[r] := 0;
  }

  lemma Front(now: Octets, p: Octets, n: nat, r: nat)
    requires n <= |now| && |p| == n + 1 && now[..n] == p[1..] && r <= n
    ensures now[..r] == p[1..1 + r]
  {
    assert now[..r] == now[..n][..r];
  }

  lemma FirstOpened(hash: Hash, secret: Octets, before: Octets, c: Octets)
    requires Hashes(hash) && |c| % BLOCK == 0 && c != []
    ensures Open(hash, secret, before, c)[0] == XorByte(c[0], hash(secret + before)[0])
  {
    hide Open;
    OpenAt(hash, secret, before, c, 0);
    assert Open(hash, secret, before, c)[0] == Open(hash, secret, before, c)[0..0 + BLOCK][0];
  }

  /** Bytes 1 to n of the plain text are in place, three places before where they were. */
  ghost predicate Partly(now: Octets, p: Octets, was: Octets, n: nat) {
    && |now| == |was| && n <= |p| && n <= |was|
    && forall j :: 0 <= j < |now| ==> now[j] == if j < n - 1 then p[j + 1] else was[j]
  }

  lemma PartlyAhead(now: Octets, p: Octets, was: Octets, n: nat)
    requires Partly(now, p, was, n) && n + 2 + BLOCK <= |was|
    ensures |now| == |was| && now[n + 2..n + 2 + BLOCK] == was[n + 2..n + 2 + BLOCK]
  {
  }

  lemma PartlyEnd(now: Octets, p: Octets, was: Octets)
    requires Partly(now, p, was, |p|) && p != []
    ensures |p| <= |now| && now[..|p| - 1] == p[1..]
  {
  }

  lemma PartlyStart(was: Octets, p: Octets)
    ensures Partly(was, p, was, 0)
  {
  }

  lemma LinkIs(before: Octets, c: Octets, n: nat)
    requires n <= |c| && (n > 0 ==> n >= BLOCK)
    ensures Link(before, c, n) == if n == 0 then before else c[n - BLOCK..n]
  {
  }

  lemma BlockBehind(n: nat, l: nat)
    requires n % BLOCK == 0 && l <= n <= Cover(l)
    ensures n == Cover(l)
  {
  }

  lemma BlockWithin(n: nat, l: nat)
    requires n % BLOCK == 0 && n < l
    ensures n + BLOCK <= Cover(l)
  {
    RoomForBlock(n, Cover(l));
  }

  /** One round: the hash for the next block is started before this block is overwritten. */
  method OpenNext(buf: array<Octet>, n: nat, hash: Hash, secret: Octets, digest: Octets, ghost was: Octets,
      ghost before: Octets, ghost c: Octets)
    returns (digest': Octets)
    requires Hashes(hash) && |c| % BLOCK == 0 && n % BLOCK == 0 && (n > 0 ==> n >= BLOCK) && n + BLOCK <= |c|
    requires 2 + |c| <= |was|
    requires c == was[2..2 + |c|] && Partly(buf[..], Open(hash, secret, before, c), was, n)
    requires |digest| == BLOCK && digest == hash(secret + Link(before, c, n))
    modifies buf
    ensures Partly(buf[..], Open(hash, secret, before, c), was, n + BLOCK)
    ensures |digest'| == BLOCK && digest' == hash(secret + Link(before, c, n + BLOCK))
  {
    hide *;
    OpenHere(hash, secret, before, c, was, n);
    LinkAhead(buf[..], Open(hash, secret, before, c), was, before, c, n);
    var next := secret + buf[n + 2..n + 2 + BLOCK];
    OpenBlock(buf, n, digest, Open(hash, secret, before, c), was);
    digest' := hash(next);
    assert |digest'| == BLOCK by { HashSize(hash, next); }
  }

  lemma HashSize(hash: Hash, x: Octets)
    requires Hashes(hash)
    ensures |hash(x)| == BLOCK
  {
  }

  lemma OpenHere(hash: Hash, secret: Octets, before: Octets, c: Octets, was: Octets, n: nat)
    requires Hashes(hash) && |c| % BLOCK == 0 && n % BLOCK == 0 && (n > 0 ==> n >= BLOCK) && n + BLOCK <= |c|
    requires 2 + |c| <= |was|
    requires c == was[2..2 + |c|]
    ensures |hash(secret + Link(before, c, n))| == BLOCK
    ensures Open(hash, secret, before, c)[n..n + BLOCK] ==
            Xor(was[n + 2..n + 2 + BLOCK], hash(secret + Link(before, c, n)))
  {
    hide Open, Link, Xor;
    OpenAt(hash, secret, before, c, n);
    SubSlice(was, 2, c, n, n + BLOCK);
  }

  /** The hidden block that the next link needs is not overwritten yet. */
  lemma LinkAhead(now: Octets, p: Octets, was: Octets, before: Octets, c: Octets, n: nat)
    requires Partly(now, p, was, n) && n + BLOCK <= |c| && 2 + |c| <= |was| && c == was[2..2 + |c|]
    ensures |now| == |was| && now[n + 2..n + 2 + BLOCK] == Link(before, c, n + BLOCK)
  {
    hide Partly;
    PartlyAhead(now, p, was, n);
    SubSlice(was, 2, c, n, n + BLOCK);
  }

  /** The loop over the blocks. */
  method OpenBlocks(buf: array<Octet>, l: nat, hash: Hash, secret: Octets, auth: Octets, first: Octets)
    requires Hashes(hash) && 0 < l && 2 + Cover(l) <= buf.Length && first == hash(secret + (auth + buf[..2]))
    modifies buf
    ensures buf[..Cover(l) - 1] == Open(hash, secret, auth + old(buf[..2]), old(buf[2..2 + Cover(l)]))[1..]
  {
    hide Open, Partly, Padding, Link, Xor, Cover;
    ghost var was := buf[..];
    ghost var before := auth + was[..2];
    ghost var c := was[2..2 + Cover(l)];
    ghost var p := Open(hash, secret, before, c);
    PartlyStart(was, p);
    LinkIs(before, c, 0);
    var digest := first;
    var n := 0;
    while n < l
      invariant n % BLOCK == 0 && n <= Cover(l) && (n > 0 ==> n >= BLOCK)
      invariant |digest| == BLOCK && digest == hash(secret + Link(before, c, n)) && Partly(buf[..], p, was, n)
      decreases Cover(l) - n
    {
      BlockWithin(n, l);
      digest := OpenNext(buf, n, hash, secret, digest, was, before, c);
      n := n + BLOCK;
    }
    BlockBehind(n, l);
    PartlyEnd(buf[..], p, was);
  }

  /** One block: byte by byte it lands three places before where it was. */
  method OpenBlock(buf: array<Octet>, n: nat, digest: Octets, ghost p: Octets, ghost was: Octets)
    requires Partly(buf[..], p, was, n) && |digest| == BLOCK && n + 2 + BLOCK <= |was| && n + BLOCK <= |p|
    requires p[n..n + BLOCK] == Xor(was[n + 2..n + 2 + BLOCK], digest)
    modifies buf
    ensures Partly(buf[..], p, was, n + BLOCK)
  {
    var i := if n == 0 then 1 else 0;
    while i < BLOCK
      invariant 0 <= i <= BLOCK && n + i >= 1 && Partly(buf[..], p, was, n + i)
    {
      assert p[n + i] == p[n..n + BLOCK][i];
      buf[n + i - 1] := XorByte(buf[n + i + 2], digest[i]);
      i := i + 1;
    }
  }

  // ---- what the standards say ----

  /** Bit `k` of a number, from the lowest on. */
  predicate Bit(x: nat, k: nat) { if k == 0 then x % 2 == 1 else Bit(x / 2, k - 1) }

  lemma {:induction false} XorBitsAre(x: nat, y: nat, n: nat, k: nat)
    requires k < n
    ensures Bit(XorBits(x, y, n), k) == (Bit(x, k) != Bit(y, k))
    decreases n
  {
    if k > 0 { XorBitsAre(x / 2, y / 2, n - 1, k - 1); }
  }

  /** The exclusive or of two bytes is that of their bits. */
  lemma XorIsBitwise(x: Byte, y: Byte, k: nat)
    requires k < 8
    ensures Bit(XorByte(x, y), k) == (Bit(x, k) != Bit(y, k))
  {
    XorBitsAre(x, y, 8, k);
  }

  /** Section 5.2 of RFC 2865: the first block of 16 bytes is xor-ed with the hash of the secret followed by the request
      authenticator, and every other with that of the secret followed by the hidden block before it. */
  lemma HiddenByTheStandard(hash: Hash, secret: Octets, auth: Octets, p: Octets, i: nat)
    requires Hashes(hash) && |p| % 16 == 0 && 16 * i + 16 <= |p|
    ensures var c := Seal(hash, secret, auth, p); var n := 16 * i;
            var key := hash(secret + if i == 0 then auth else c[n - 16..n]);
            |key| == 16 && forall j :: 0 <= j < 16 ==> c[n + j] == XorByte(p[n + j], key[j])
  {
    hide Seal;
    var c, n := Seal(hash, secret, auth, p), 16 * i;
    SealAt(hash, secret, auth, p, n);
    LinkIs(auth, c, n);
    var key := hash(secret + if i == 0 then auth else c[n - 16..n]);
    assert c[n..n + 16] == Xor(p[n..n + 16], key);
    forall j | 0 <= j < 16
      ensures c[n + j] == XorByte(p[n + j], key[j])
    {
      assert c[n + j] == c[n..n + 16][j] && p[n + j] == p[n..n + 16][j];
    }
  }

  /** As many zero bytes are added as make up a whole block, and none to a whole block. */
  lemma PaddingIs(word: Octets)
    ensures var p := Padded(word);
            && |p| == (|word| + 15) / 16 * 16 && word <= p && forall j :: |word| <= j < |p| ==> p[j] == 0
  {
  }

  /** Section 3.5 of RFC 2868: the salt goes in clear, and behind the authenticator into the first hash; what is hidden
      is the length, the password and the padding. */
  lemma TunnelByTheStandard(hash: Hash, secret: Octets, auth: Octets, salt: Octets, n: Octet, word: Octets, i: nat)
    requires Hashes(hash) && |salt| == 2 && n == |word| && 16 * i < 1 + |word|
    ensures var z := SealTunnel(hash, secret, auth, salt, n, word);
            var m := (1 + |word| + 15) / 16 * 16;
            && |z| == 2 + m && z[..2] == salt
            && (var key := hash(secret + if i == 0 then auth + salt else z[2 + 16 * i - 16..2 + 16 * i]);
                forall j :: 0 <= j < 16 ==>
                  |key| == 16 && z[2 + 16 * i + j] ==
                    XorByte(if 16 * i + j == 0 then n else if 16 * i + j <= |word| then word[16 * i + j - 1]
                      else 0, key[j]))
  {
    hide Seal, Padded;
    var q := [n] + word;
    var p := Padded(q);
    PaddingIs(q);
    var c := Seal(hash, secret, auth + salt, p);
    HiddenByTheStandard(hash, secret, auth + salt, p, i);
    var z := salt + c;
    assert i > 0 ==> z[2 + 16 * i - 16..2 + 16 * i] == c[16 * i - 16..16 * i];
    var key := hash(secret + if i == 0 then auth + salt else c[16 * i - 16..16 * i]);
    forall j | 0 <= j < 16
      ensures z[2 + 16 * i + j] ==
              XorByte(if 16 * i + j == 0 then n else if 16 * i + j <= |word| then word[16 * i + j - 1] else 0, key[j])
    {
      assert z[2 + 16 * i + j] == c[16 * i + j];
      assert 16 * i + j < |q| ==> p[16 * i + j] == q[16 * i + j];
    }
  }

  /** What becomes of an attribute: one of fewer than two bytes and one without a password say nothing; nor does one
      whose length byte claims as much as the attribute has, itself included; of more than 239 bytes the first 239
      count. */
  lemma DecodeIs(hash: Hash, secret: Octets, auth: Octets, buf: Octets, len: nat)
    requires Hashes(hash) && len <= |buf|
    ensures var r := Decode(hash, secret, auth, buf, len);
            && (r == Short <==> len < 2) && (r == Empty <==> len == 2 || len == 3)
            && (len > 3 ==>
                  var key := hash(secret + (auth + buf[..2]));
                  |key| == 16 &&
                  var n := XorByte(buf[2], key[0]);
                  var m := (len - 2 + 15) / 16 * 16;
                  && (r == TooLong <==> n + 2 >= len)
                  && (r == Beyond <==> n + 2 < len && 2 + m > |buf|)
                  && (r.Decoded? <==> n + 2 < len && 2 + m <= |buf|)
                  && (r.Decoded? ==> |r.word| == if n > 239 then 239 else n))
  {
    hide Open, XorByte;
    assert len > 3 ==> Cover(len - 2) == (len - 2 + 15) / 16 * 16;
  }
}
