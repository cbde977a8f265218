/** The lookup of sessions by address: a tree of four levels of 256 entries for IPv4, and one of nibbles for
    IPv6. Both behave as a flat map. */
module IpTrie {
  import opened Common

  // ---- IPv4 ----

  type Address = seq<Byte>

  /** The value a flat map holds for a key that may never have been written. */
  function Get<K>(m: map<K, U16>, k: K): U16 { if k in m then m[k] else 0 }

  /** A table of 256 entries: pointers on the upper three levels, sessions on the lowest. */
  class Level {
    var idx: seq<Level?>
    var sess: seq<U16>
    ghost const path: Address

    constructor (ghost path: Address)
      ensures this.path == path && idx == NoEntries() && sess == NoSessions()
    {
      idx, sess := NoEntries(), NoSessions();
      this.path := path;
    }
  }

  /** A table as calloc leaves it. */
  function NoEntries(): (t: seq<Level?>)
    ensures |t| == 256 && forall b :: 0 <= b < 256 ==> t[b] == null
  {
    seq(256, _ => null)
  }

  function NoSessions(): (t: seq<U16>)
    ensures |t| == 256 && forall b :: 0 <= b < 256 ==> t[b] == 0
  {
    seq(256, _ => 0)
  }

  lemma Be32Injective(x: U32, y: U32)
    requires Be32(x) == Be32(y)
    ensures x == y
  {
    assert Be32(x)[0] == Be32(y)[0] && Be32(x)[1] == Be32(y)[1];
    assert Be32(x)[2] == Be32(y)[2] && Be32(x)[3] == Be32(y)[3];
    assert x / 0x1_0000 == x / 0x100 / 0x100 && x / 0x100_0000 == x / 0x1_0000 / 0x100;
    assert y / 0x1_0000 == y / 0x100 / 0x100 && y / 0x100_0000 == y / 0x1_0000 / 0x100;
  }

  /** Writing the entry of one address leaves those of all others. */
  lemma OthersKeep(m: map<Address, U16>, ip: U32, s: U16)
    ensures forall y: U32 :: Get(m[Be32(ip) := s], Be32(y)) == if y == ip then s else Get(m, Be32(y))
  {
    hide Be32;
    forall y: U32
      ensures Get(m[Be32(ip) := s], Be32(y)) == if y == ip then s else Get(m, Be32(y))
    {
      if Be32(y) == Be32(ip) { Be32Injective(y, ip); }
    }
  }

  lemma UpdatedTwice<K, V>(m: map<K, V>, m': map<K, V>, p: K, x: V, q: K, y: V)
    requires m'.Keys == m.Keys + {p, q} && m'[q] == y && p != q && m'[p] == x
    requires forall k :: k in m && k != p && k != q ==> m'[k] == m[k]
    ensures m' == m[p := x][q := y]
  {
  }

  /** Every table is where its path says, below another one, and an entry leads to the table of the longer
      path, if there is one. */
  ghost predicate Tree(nodes: map<Address, Level>, idx: map<Address, seq<Level?>>) {
    && [] in nodes && idx.Keys == nodes.Keys
    && (forall p :: p in nodes ==>
        |p| <= 3 && nodes[p].path == p && |idx[p]| == 256 && (p != [] ==> p[..|p| - 1] in nodes))
    && (forall p, b: Byte :: p in nodes ==> idx[p][b] == if p + [b] in nodes then nodes[p + [b]] else null)
  }

  /** The lowest level holds the contents of the map. */
  ghost predicate Store(paths: set<Address>, sess: map<Address, seq<U16>>, contents: map<Address, U16>) {
    && sess.Keys == paths && (forall p :: p in paths ==> |sess[p]| == 256)
    && (forall p, b: Byte :: p in paths && |p| == 3 ==> sess[p][b] == Get(contents, p + [b]))
    && (forall a :: a in contents ==> |a| == 4 && (contents[a] == 0 || a[..3] in paths))
  }

  lemma TreeExtended(nodes: map<Address, Level>, idx: map<Address, seq<Level?>>, p: Address, b: Byte, n: Level)
    requires Tree(nodes, idx) && p in nodes && |p| < 3 && p + [b] !in nodes && n.path == p + [b]
    ensures Tree(nodes[p + [b] := n], idx[p := idx[p][b := n]][p + [b] := NoEntries()])
  {
    hide NoEntries;
    var nodes', idx' := nodes[p + [b] := n], idx[p := idx[p][b := n]][p + [b] := NoEntries()];
    NewPath(nodes, idx, p, b, n);
    forall q, c: Byte | q in nodes'
      ensures idx'[q][c] == if q + [c] in nodes' then nodes'[q + [c]] else null
    {
      NewEntry(nodes, idx, p, b, n, q, c);
    }
  }

  /** With a new table every table is still where its path says. */
  lemma NewPath(nodes: map<Address, Level>, idx: map<Address, seq<Level?>>, p: Address, b: Byte, n: Level)
    requires Tree(nodes, idx) && p in nodes && |p| < 3 && p + [b] !in nodes && n.path == p + [b]
    ensures var nodes', idx' := nodes[p + [b] := n], idx[p := idx[p][b := n]][p + [b] := NoEntries()];
            && [] in nodes' && idx'.Keys == nodes'.Keys
            && forall q :: q in nodes' ==>
                 |q| <= 3 && nodes'[q].path == q && |idx'[q]| == 256 && (q != [] ==> q[..|q| - 1] in nodes')
  {
    hide NoEntries;
    assert (p + [b])[..|p|] == p;
    assert (p + [b])[..|p + [b]| - 1] == p;
  }

  /** And its entries lead where they should. */
  lemma NewEntry(nodes: map<Address, Level>, idx: map<Address, seq<Level?>>, p: Address, b: Byte, n: Level, q: Address,
                 c: Byte)
    requires Tree(nodes, idx) && p in nodes && p + [b] !in nodes
    requires q in nodes || q == p + [b]
    ensures var nodes', idx' := nodes[p + [b] := n], idx[p := idx[p][b := n]][p + [b] := NoEntries()];
            && q in idx' && |idx'[q]| == 256
            && idx'[q][c] == if q + [c] in nodes' then nodes'[q + [c]] else null
  {
    hide Tree;
    OtherEntry(p, b, q, c);
    PathGrows(p, b);
    if q == p + [b] {
      NotBelow(nodes, idx, q, c);
    } else {
      EntryAt(nodes, idx, q, c);
    }
    EntryAt(nodes, idx, p, b);
  }

  lemma EntryAt(nodes: map<Address, Level>, idx: map<Address, seq<Level?>>, q: Address, c: Byte)
    requires Tree(nodes, idx) && q in nodes
    ensures q in idx && |idx[q]| == 256 && idx[q][c] == if q + [c] in nodes then nodes[q + [c]] else null
  {
  }

  lemma PathGrows(p: Address, b: Byte)
    ensures p + [b] != p
  {
    assert |p + [b]| == |p| + 1;
  }

  lemma NotBelow(nodes: map<Address, Level>, idx: map<Address, seq<Level?>>, q: Address, c: Byte)
    requires Tree(nodes, idx) && q !in nodes
    ensures q + [c] !in nodes
  {
    assert (q + [c])[..|q|] == q;
  }

  lemma OtherEntry(p: Address, b: Byte, q: Address, c: Byte)
    ensures q + [c] == p + [b] <==> q == p && c == b
  {
    if q + [c] == p + [b] {
      assert |q| == |p| && (q + [c])[|q|] == c && (p + [b])[|q|] == b;
      assert (q + [c])[..|q|] == q && (p + [b])[..|p|] == p;
    }
  }

  lemma StoreExtended(paths: set<Address>, sess: map<Address, seq<U16>>, contents: map<Address, U16>, p: Address)
    requires Store(paths, sess, contents) && p !in paths
    ensures Store(paths + {p}, sess[p := NoSessions()], contents)
  {
    forall b: Byte
      ensures |p| == 3 ==> Get(contents, p + [b]) == 0
    {
      assert (p + [b])[..|p|] == p;
    }
  }

  function Put(t: seq<U16>, b: Byte, s: U16): seq<U16>
    requires |t| == 256
  {
    t[b := s]
  }

  lemma StoreWritten(paths: set<Address>, sess: map<Address, seq<U16>>, contents: map<Address, U16>, a: Address, s: U16)
    requires Store(paths, sess, contents) && |a| == 4 && a[..3] in paths
    ensures Store(paths, sess[a[..3] := Put(sess[a[..3]], a[3], s)], contents[a := s])
  {
    assert a == a[..3] + [a[3]];
    forall q: Address, c: Byte | q in paths && |q| == 3
      ensures q + [c] == a <==> q == a[..3] && c == a[3]
    {
      OtherEntry(a[..3], a[3], q, c);
    }
  }

  /** The way to a table leads through tables. */
  lemma Above(nodes: map<Address, Level>, idx: map<Address, seq<Level?>>, a: Address, i: nat)
    requires Tree(nodes, idx) && |a| == 4 && 0 < i <= 3
    ensures a[..3] in nodes ==> a[..i] in nodes
  {
    if a[..3] in nodes {
      assert a[..3][..2] == a[..2];
      assert a[..2][..1] == a[..1];
    }
  }

  /** The entry for the next byte of an address. */
  lemma Entry(nodes: map<Address, Level>, idx: map<Address, seq<Level?>>, a: Address, i: nat)
    requires Tree(nodes, idx) && i < |a| && a[..i] in nodes
    ensures |idx[a[..i]]| == 256 && idx[a[..i]][a[i]] == if a[..i + 1] in nodes then nodes[a[..i + 1]] else null
  {
    assert a[..i + 1] == a[..i] + [a[i]];
  }

  class IpCache {
    const root: Level
    ghost var nodes: map<Address, Level>
    ghost var contents: map<Address, U16>

    ghost function Idx(): (m: map<Address, seq<Level?>>)
      reads this`nodes, nodes.Values`idx
      ensures m.Keys == nodes.Keys && forall p :: p in nodes ==> m[p] == nodes[p].idx
    {
      map p | p in nodes :: nodes[p].idx
    }

    ghost function Sess(): (m: map<Address, seq<U16>>)
      reads this`nodes, nodes.Values`sess
      ensures m.Keys == nodes.Keys && forall p :: p in nodes ==> m[p] == nodes[p].sess
    {
      map p | p in nodes :: nodes[p].sess
    }

    ghost predicate Valid()
      reads this, nodes.Values
    {
      && Tree(nodes, Idx()) && nodes[[]] == root && Store(nodes.Keys, Sess(), contents)
    }

    constructor ()
      ensures Valid() && contents == map[] && fresh(root)
    {
      root := new Level([]);
      nodes, contents := map[], map[];
      new;
      nodes := map[[] := root];
    }

    /** lookup_ipmap: the address in network order. */
    method Lookup(a: Address) returns (s: U16)
      requires Valid() && |a| == 4
      ensures s == Get(contents, a)
    {
      hide Tree;
      TreeRoot(nodes, Idx());
      var h := root;
      var i := 0;
      while i < 3
        invariant 0 <= i <= 3 && a[..i] in nodes && h == nodes[a[..i]]
      {
        Entry(nodes, Idx(), a, i);
        if h.idx[a[i]] == null {
          Above(nodes, Idx(), a, i + 1);
          return 0;
        }
        h := h.idx[a[i]];
        i := i + 1;
      }
      assert a == a[..3] + [a[3]];
      return h.sess[a[3]];
    }

    /** An entry that led nowhere gets a new table. */
    method Extend(h: Level, ghost p: Address, b: Byte)
      requires Valid() && p in nodes && nodes[p] == h && |p| < 3 && p + [b] !in nodes
      modifies this`nodes, h`idx
      ensures Valid() && p + [b] in nodes && fresh(nodes[p + [b]]) && nodes == old(nodes)[p + [b] := nodes[p + [b]]]
    {
      hide Tree, Store, NoEntries, NoSessions;
      ghost var idx, sess, paths := Idx(), Sess(), nodes.Keys;
      TreePaths(nodes, idx);
      var n := new Level(p + [b]);
      TreeExtended(nodes, idx, p, b, n);
      StoreExtended(paths, sess, contents, p + [b]);
      h.idx := h.idx[b := n];
      nodes := nodes[p + [b] := n];
      UpdatedTwice(idx, Idx(), p, idx[p][b := n], p + [b], NoEntries());
      assert Sess() == sess[p + [b] := NoSessions()];
      assert nodes.Keys == paths + {p + [b]};
    }

    /** One level down, into a new table if need be. */
    method Down(h: Level, a: Address, i: nat) returns (h': Level)
      requires Valid() && |a| == 4 && i < 3 && a[..i] in nodes && h == nodes[a[..i]]
      modifies this`nodes, h`idx
      ensures Valid() && a[..i + 1] in nodes && h' == nodes[a[..i + 1]] && fresh(nodes.Values - old(nodes.Values))
    {
      hide Tree, Store, Idx, Sess;
      Entry(nodes, Idx(), a, i);
      IdxAt(a[..i]);
      assert a[..i + 1] == a[..i] + [a[i]];
      if h.idx[a[i]] == null { Extend(h, a[..i], a[i]); }
      Entry(nodes, Idx(), a, i);
      IdxAt(a[..i]);
      h' := h.idx[a[i]];
    }

    /** cache_ipmap: the address in host order. */
    method Cache(ip: U32, s: U16)
      requires Valid()
      modifies this, nodes.Values
      ensures Valid() && contents == old(contents)[Be32(ip) := s] && fresh(nodes.Values - old(nodes.Values))
      ensures forall y: U32 :: Get(contents, Be32(y)) == if y == ip then s else Get(old(contents), Be32(y))
    {
      hide *;
      var a := Be32(ip);
      Rooted();
      var h := root;
      var i := 0;
      while i < 3
        invariant 0 <= i <= 3 && Valid() && a[..i] in nodes && h == nodes[a[..i]]
        invariant contents == old(contents) && fresh(nodes.Values - old(nodes.Values))
      {
        h := Down(h, a, i);
        i := i + 1;
      }
      OthersKeep(contents, ip, s);
      Write(h, a, s);
    }

    lemma Rooted()
      requires Valid()
      ensures [] in nodes && nodes[[]] == root
    {
    }

    /** The entry on the lowest level. */
    method Write(h: Level, a: Address, s: U16)
      requires Valid() && |a| == 4 && a[..3] in nodes && h == nodes[a[..3]]
      modifies h`sess, this`contents
      ensures Valid() && contents == old(contents)[a := s]
    {
      hide Tree, Store;
      ghost var idx, sess := Idx(), Sess();
      TreePaths(nodes, idx);
      StoreSize(nodes.Keys, sess, contents);
      StoreWritten(nodes.Keys, sess, contents, a, s);
      h.sess := h.sess[a[3] := s];
      contents := contents[a := s];
      assert Idx() == idx;
      assert Sess() == sess[a[..3] := Put(sess[a[..3]], a[3], s)];
    }

    lemma IdxAt(p: Address)
      requires p in nodes
      ensures p in Idx() && Idx()[p] == nodes[p].idx
    {
    }
  }

  lemma TreePaths(nodes: map<Address, Level>, idx: map<Address, seq<Level?>>)
    requires Tree(nodes, idx)
    ensures forall q :: q in nodes ==> nodes[q].path == q && q in idx && |idx[q]| == 256
  {
  }

  lemma TreeRoot(nodes: map<Address, Level>, idx: map<Address, seq<Level?>>)
    requires Tree(nodes, idx)
    ensures [] in nodes
  {
  }

  lemma StoreSize(paths: set<Address>, sess: map<Address, seq<U16>>, contents: map<Address, U16>)
    requires Store(paths, sess, contents)
    ensures sess.Keys == paths && forall p :: p in paths ==> |sess[p]| == 256
  {
  }

  // ---- IPv6 ----

  type Nibble = x: int | 0 <= x < 16
  type Prefix = seq<Nibble>

  const NIBBLES := 32

  /** Nibble `i` of an address of 16 bytes, as the code picks it out. */
  function NibbleOf(ip: seq<Byte>, i: nat): Nibble
    requires |ip| == 16 && i < NIBBLES
  {
    if i % 2 == 1 then ip[i / 2] % 16 else ip[i / 2] / 16
  }

  function Nibbles(ip: seq<Byte>): (p: Prefix)
    requires |ip| == 16
    ensures |p| == NIBBLES && forall i :: 0 <= i < NIBBLES ==> p[i] == NibbleOf(ip, i)
  {
    seq(NIBBLES, i requires 0 <= i < NIBBLES => NibbleOf(ip, i))
  }

  /** How many nibbles a prefix length stands for: it is rounded down, but never to none. */
  function Count(prefixlen: nat): (n: nat)
    requires prefixlen <= 128
    ensures 1 <= n <= NIBBLES
  {
    if prefixlen / 4 > 1 then prefixlen / 4 else 1
  }

  /** The session of the shortest prefix, of `k` nibbles or more, that has one. */
  function First(m: map<Prefix, U16>, a: Prefix, k: nat): U16
    requires 1 <= k <= NIBBLES == |a|
    decreases NIBBLES - k
  {
    if Get(m, a[..k]) != 0 then Get(m, a[..k]) else if k == NIBBLES then 0 else First(m, a, k + 1)
  }

  /** A lookup answers with the session of the shortest prefix of the address that has one, and with none
      only if no prefix has one. */
  lemma {:induction false} FirstIsShortest(m: map<Prefix, U16>, a: Prefix, k: nat)
    requires 1 <= k <= NIBBLES == |a|
    ensures First(m, a, k) == 0 <==> forall j :: k <= j <= NIBBLES ==> Get(m, a[..j]) == 0
    ensures First(m, a, k) != 0 ==>
              exists j ::
                && k <= j <= NIBBLES && First(m, a, k) == Get(m, a[..j])
                && forall i :: k <= i < j ==> Get(m, a[..i]) == 0
    decreases NIBBLES - k
  {
    if Get(m, a[..k]) == 0 && k < NIBBLES {
      FirstIsShortest(m, a, k + 1);
    }
  }

  // ---- rounding ----

  /** Bit `k` of a nibble, from the highest on. */
  predicate NibbleBit(y: nat, k: nat)
    requires k < 4
  {
    (if k == 0 then y / 8 else if k == 1 then y / 4 else if k == 2 then y / 2 else y) % 2 == 1
  }

  predicate Bit(a: Prefix, i: nat)
    requires i < 4 * |a|
  {
    NibbleBit(a[i / 4], i % 4)
  }

  /** Bit `k` of a byte, from the highest on. */
  predicate HighBit(x: Byte, k: nat)
    requires k < 8
  {
    (if k == 0 then x / 128 else if k == 1 then x / 64 else if k == 2 then x / 32 else if k == 3 then x / 16
     else if k == 4 then x / 8 else if k == 5 then x / 4 else if k == 6 then x / 2 else x) % 2 == 1
  }

  /** The bits of the nibbles are those of the address, in network order. */
  lemma BitsOfAddress(ip: seq<Byte>, i: nat)
    requires |ip| == 16 && i < 128
    ensures Bit(Nibbles(ip), i) == HighBit(ip[i / 8], i % 8)
  {
    hide NibbleBit, HighBit;
    var x := ip[i / 8];
    assert Nibbles(ip)[i / 4] == if i / 4 % 2 == 1 then x % 16 else x / 16 by { HalfOf(i); }
    HalfOf(i);
    ByteBits(x, i % 8);
  }

  lemma HalfOf(i: nat)
    ensures i / 4 / 2 == i / 8 && i % 8 == 4 * (i / 4 % 2) + i % 4
  {
  }

  lemma ByteBits(x: Byte, k: nat)
    requires k < 8
    ensures HighBit(x, k) == NibbleBit(if k >= 4 then x % 16 else x / 16, k % 4)
  {
    hide HighBit, NibbleBit;
    if k < 4 {
      UpperBit(x, k);
    } else {
      assert 16 * (x / 16) + x % 16 == x;
      LowerBit(x / 16, x % 16, k);
    }
  }

  lemma UpperBit(x: Byte, k: nat)
    requires k < 4
    ensures HighBit(x, k) == NibbleBit(x / 16, k)
  {
    UpperBits(x);
  }

  lemma LowerBit(hi: nat, lo: nat, k: nat)
    requires 4 <= k < 8 && lo < 16 && hi < 16
    ensures HighBit(16 * hi + lo, k) == NibbleBit(lo, k - 4)
  {
    LowerBits(hi, lo);
  }

  lemma UpperBits(x: Byte)
    ensures x / 128 == x / 16 / 8 && x / 64 == x / 16 / 4 && x / 32 == x / 16 / 2
  {
  }

  lemma LowerBits(hi: nat, lo: nat)
    requires lo < 16
    ensures var x := 16 * hi + lo;
            x / 8 % 2 == lo / 8 % 2 && x / 4 % 2 == lo / 4 % 2 && x / 2 % 2 == lo / 2 % 2 && x % 2 == lo % 2
  {
    Eighths(2 * hi, lo);
    Quarters(4 * hi, lo);
    Halves(8 * hi, lo);
    Parity(hi, lo / 8);
    Parity(2 * hi, lo / 4);
    Parity(4 * hi, lo / 2);
    Parity(8 * hi, lo);
  }

  lemma Eighths(k: nat, lo: nat)
    ensures (8 * k + lo) / 8 == k + lo / 8
  {
  }

  lemma Quarters(k: nat, lo: nat)
    ensures (4 * k + lo) / 4 == k + lo / 4
  {
  }

  lemma Halves(k: nat, lo: nat)
    ensures (2 * k + lo) / 2 == k + lo / 2
  {
  }

  lemma Parity(m: nat, y: nat)
    ensures (2 * m + y) % 2 == y % 2
  {
  }

  /** Two addresses share a prefix of `len` bits. */
  ghost predicate SameBits(a: Prefix, b: Prefix, len: nat)
    requires |a| == |b| == NIBBLES && len <= 128
  {
    forall i :: 0 <= i < len ==> Bit(a, i) == Bit(b, i)
  }

  lemma NibbleBits(a: Prefix, b: Prefix, j: nat)
    requires |a| == |b| == NIBBLES && j < NIBBLES
    ensures a[j] == b[j] <==>
              && Bit(a, 4 * j) == Bit(b, 4 * j) && Bit(a, 4 * j + 1) == Bit(b, 4 * j + 1)
              && Bit(a, 4 * j + 2) == Bit(b, 4 * j + 2) && Bit(a, 4 * j + 3) == Bit(b, 4 * j + 3)
  {
    hide NibbleBit;
    assert (4 * j) / 4 == j && (4 * j + 1) / 4 == j && (4 * j + 2) / 4 == j && (4 * j + 3) / 4 == j;
    FourBits(a[j], b[j]);
  }

  /** A nibble is what its bits say. */
  lemma NibbleValue(x: Nibble)
    ensures x == (if NibbleBit(x, 0) then 8 else 0) + (if NibbleBit(x, 1) then 4 else 0) +
                 (if NibbleBit(x, 2) then 2 else 0) + if NibbleBit(x, 3) then 1 else 0
  {
    var y, z := x / 2, x / 4;
    assert z == y / 2 && x / 8 == z / 2;
    assert x == 2 * y + x % 2 && y == 2 * z + y % 2 && z == 2 * (z / 2) + z % 2;
  }

  lemma FourBits(x: Nibble, y: Nibble)
    ensures x == y <==> NibbleBit(x, 0) == NibbleBit(y, 0) && NibbleBit(x, 1) == NibbleBit(y, 1) &&
                        NibbleBit(x, 2) == NibbleBit(y, 2) && NibbleBit(x, 3) == NibbleBit(y, 3)
  {
    hide NibbleBit;
    NibbleValue(x);
    NibbleValue(y);
  }

  lemma SameNibbles(a: Prefix, b: Prefix, n: nat)
    requires |a| == |b| == NIBBLES && n <= NIBBLES
    ensures a[..n] == b[..n] <==> SameBits(a, b, 4 * n)
  {
    hide Bit;
    if a[..n] == b[..n] {
      forall i | 0 <= i < 4 * n
        ensures Bit(a, i) == Bit(b, i)
      {
        assert a[i / 4] == a[..n][i / 4] && b[i / 4] == b[..n][i / 4];
        NibbleBits(a, b, i / 4);
        assert i == 4 * (i / 4) || i == 4 * (i / 4) + 1 || i == 4 * (i / 4) + 2 || i == 4 * (i / 4) + 3;
      }
    }
    if SameBits(a, b, 4 * n) {
      forall j | 0 <= j < n
        ensures a[j] == b[j]
      {
        NibbleBits(a, b, j);
      }
    }
  }

  /** The tree decides by nibbles. That is matching by prefix length for all addresses exactly when the
      length is a positive multiple of 4. */
  lemma RoundingIff(len: nat)
    requires len <= 128
    ensures (forall a: Prefix, b: Prefix :: |a| == |b| == NIBBLES ==>
             (a[..Count(len)] == b[..Count(len)] <==> SameBits(a, b, len)))
            <==> len % 4 == 0 && len > 0
  {
    hide SameBits;
    var n := Count(len);
    if len % 4 == 0 && len > 0 {
      assert len == 4 * n;
      forall a: Prefix, b: Prefix | |a| == |b| == NIBBLES
        ensures a[..n] == b[..n] <==> SameBits(a, b, len)
      {
        SameNibbles(a, b, n);
      }
    } else if len < 4 {
      LowBitOnly(len);
    } else {
      HighBitOnly(len);
    }
  }

  function Origin(): (a: Prefix)
    ensures |a| == NIBBLES && forall i :: 0 <= i < NIBBLES ==> a[i] == 0
  {
    seq(NIBBLES, _ => 0)
  }

  /** Two addresses that agree in up to 3 bits, but not in the nibble that is compared. */
  lemma LowBitOnly(len: nat)
    requires len < 4
    ensures exists a: Prefix, b: Prefix ::
            |a| == |b| == NIBBLES && a[..Count(len)] != b[..Count(len)] && SameBits(a, b, len)
  {
    var a := Origin();
    var b: Prefix := a[0 := 1];
    assert a[..1][0] != b[..1][0];
    assert SameBits(a, b, len);
  }

  /** Two addresses that agree in all nibbles compared, but not in the bits behind them. */
  lemma HighBitOnly(len: nat)
    requires 4 < len <= 128 && len % 4 != 0
    ensures exists a: Prefix, b: Prefix ::
            |a| == |b| == NIBBLES && a[..Count(len)] == b[..Count(len)] && !SameBits(a, b, len)
  {
    var n := len / 4;
    var a := Origin();
    var b: Prefix := a[n := 8];
    assert a[..n] == b[..n];
    assert (4 * n) / 4 == n && Bit(a, 4 * n) != Bit(b, 4 * n);
  }

  // ---- the tree of nibbles ----

  /** A node: the session cached for its prefix, and 16 branches or none. */
  class Radix {
    var sess: U16
    var branch: seq<Radix>
    ghost const path: Prefix

    constructor (ghost path: Prefix)
      ensures this.path == path && sess == 0 && branch == []
    {
      sess, branch := 0, [];
      this.path := path;
    }
  }

  /** The 16 prefixes that are one nibble longer. */
  ghost function Longer(p: Prefix): (ps: set<Prefix>)
    ensures forall q :: q in ps <==> |q| == |p| + 1 && q[..|p|] == p
  {
    var ps := set x: Nibble | 0 <= x < 16 :: p + [x];
    assert forall q: Prefix :: |q| == |p| + 1 && q[..|p|] == p ==> q == p + [q[|p|]];
    ps
  }

  ghost predicate Tree6(nodes: map<Prefix, Radix>, roots: seq<Radix>, branch: map<Prefix, seq<Radix>>) {
    && |roots| == 16 && branch.Keys == nodes.Keys && (forall x: Nibble :: [x] in nodes && nodes[[x]] == roots[x])
    && Shaped(nodes, branch) && Downward(nodes, branch) && Upward(nodes, branch)
  }

  /** Every node is where its path says, and has 16 branches or none. */
  ghost predicate Shaped(nodes: map<Prefix, Radix>, branch: map<Prefix, seq<Radix>>)
    requires branch.Keys == nodes.Keys
  {
    forall p :: p in nodes ==> 1 <= |p| <= NIBBLES && nodes[p].path == p && (branch[p] == [] || |branch[p]| == 16)
  }

  /** A branch leads to the node of the longer path. */
  ghost predicate Downward(nodes: map<Prefix, Radix>, branch: map<Prefix, seq<Radix>>)
    requires branch.Keys == nodes.Keys && Shaped(nodes, branch)
  {
    forall p, x: Nibble :: p in nodes && branch[p] != [] ==> p + [x] in nodes && nodes[p + [x]] == branch[p][x]
  }

  /** Every node but the 16 roots hangs on a branch. */
  ghost predicate Upward(nodes: map<Prefix, Radix>, branch: map<Prefix, seq<Radix>>)
    requires branch.Keys == nodes.Keys
  {
    forall q :: q in nodes && |q| > 1 ==> q[..|q| - 1] in nodes && branch[q[..|q| - 1]] != []
  }

  ghost predicate Store6(paths: set<Prefix>, sess: map<Prefix, U16>, contents: map<Prefix, U16>) {
    && sess.Keys == paths && (forall p :: p in paths ==> sess[p] == Get(contents, p))
    && (forall p :: p in contents ==> contents[p] == 0 || p in paths)
  }

  ghost function Grown(nodes: map<Prefix, Radix>, p: Prefix, kids: seq<Radix>): map<Prefix, Radix>
    requires |kids| == 16
  {
    nodes + map q | q in Longer(p) :: kids[q[|p|]]
  }

  ghost function Branched(branch: map<Prefix, seq<Radix>>, p: Prefix, kids: seq<Radix>): map<Prefix, seq<Radix>> {
    branch[p := kids] + map q | q in Longer(p) :: []
  }

  /** A longer prefix belongs to exactly one shorter one. */
  lemma LongerIs(p: Prefix, q: Prefix, x: Nibble)
    ensures q + [x] in Longer(p) <==> q == p
    ensures p !in Longer(p)
    ensures q in Longer(p) ==> |q| == |p| + 1 && q[..|q| - 1] == p && q == p + [q[|p|]]
  {
    assert (q + [x])[..|q|] == q;
    if q + [x] in Longer(p) { assert |q| == |p| && (q + [x])[..|p|] == p; }
  }

  lemma GrownAt(nodes: map<Prefix, Radix>, branch: map<Prefix, seq<Radix>>, p: Prefix, kids: seq<Radix>, q: Prefix)
    requires |kids| == 16 && branch.Keys == nodes.Keys && p in nodes
    ensures q in Grown(nodes, p, kids) <==> q in nodes || q in Longer(p)
    ensures Grown(nodes, p, kids).Keys == Branched(branch, p, kids).Keys
    ensures q in Longer(p) ==>
            |q| > |p| && Grown(nodes, p, kids)[q] == kids[q[|p|]] && Branched(branch, p, kids)[q] == []
    ensures q in nodes && q !in Longer(p) ==>
            Grown(nodes, p, kids)[q] == nodes[q] && Branched(branch, p, kids)[q] == if q == p then kids else branch[q]
  {
    hide Longer;
  }

  ghost predicate Fit(p: Prefix, kids: seq<Radix>) { |kids| == 16 && forall x: Nibble :: kids[x].path == p + [x] }

  lemma ShapedExtended(nodes: map<Prefix, Radix>, branch: map<Prefix, seq<Radix>>, p: Prefix, kids: seq<Radix>)
    requires branch.Keys == nodes.Keys && Shaped(nodes, branch) && p in nodes && |p| < NIBBLES && Fit(p, kids)
    ensures Grown(nodes, p, kids).Keys == Branched(branch, p, kids).Keys
    ensures Shaped(Grown(nodes, p, kids), Branched(branch, p, kids))
  {
    hide Longer, Grown, Branched;
    var nodes', branch' := Grown(nodes, p, kids), Branched(branch, p, kids);
    GrownAt(nodes, branch, p, kids, p);
    forall q | q in nodes'
      ensures 1 <= |q| <= NIBBLES && nodes'[q].path == q && (branch'[q] == [] || |branch'[q]| == 16)
    {
      GrownAt(nodes, branch, p, kids, q);
      LongerIs(p, q, 0);
    }
  }

  lemma DownwardExtended(nodes: map<Prefix, Radix>, branch: map<Prefix, seq<Radix>>, p: Prefix, kids: seq<Radix>)
    requires branch.Keys == nodes.Keys && Shaped(nodes, branch) && Downward(nodes, branch) && p in nodes
    requires |p| < NIBBLES && Fit(p, kids)
    ensures Grown(nodes, p, kids).Keys == Branched(branch, p, kids).Keys
    ensures Shaped(Grown(nodes, p, kids), Branched(branch, p, kids))
    ensures Downward(Grown(nodes, p, kids), Branched(branch, p, kids))
  {
    hide Longer, Grown, Branched;
    ShapedExtended(nodes, branch, p, kids);
    var nodes', branch' := Grown(nodes, p, kids), Branched(branch, p, kids);
    forall q, x: Nibble | q in nodes' && branch'[q] != []
      ensures q + [x] in nodes' && nodes'[q + [x]] == branch'[q][x]
    {
      GrownAt(nodes, branch, p, kids, q);
      GrownAt(nodes, branch, p, kids, q + [x]);
      LongerIs(p, q, x);
    }
  }

  lemma UpwardExtended(nodes: map<Prefix, Radix>, branch: map<Prefix, seq<Radix>>, p: Prefix, kids: seq<Radix>)
    requires branch.Keys == nodes.Keys && Upward(nodes, branch) && p in nodes && |p| >= 1 && branch[p] == []
    requires |kids| == 16
    ensures forall q :: q in Longer(p) ==> q !in nodes
    ensures Grown(nodes, p, kids).Keys == Branched(branch, p, kids).Keys
    ensures Upward(Grown(nodes, p, kids), Branched(branch, p, kids))
  {
    hide Longer, Grown, Branched;
    var nodes', branch' := Grown(nodes, p, kids), Branched(branch, p, kids);
    GrownAt(nodes, branch, p, kids, p);
    forall q | q in Longer(p)
      ensures q !in nodes
    {
      LongerIs(p, q, 0);
    }
    forall q | q in nodes' && |q| > 1
      ensures q[..|q| - 1] in nodes' && branch'[q[..|q| - 1]] != []
    {
      var r := q[..|q| - 1];
      assert q == r + [q[|q| - 1]];
      GrownAt(nodes, branch, p, kids, q);
      GrownAt(nodes, branch, p, kids, r);
      LongerIs(p, r, q[|q| - 1]);
    }
  }

  lemma Tree6Extended(nodes: map<Prefix, Radix>, roots: seq<Radix>, branch: map<Prefix, seq<Radix>>, p: Prefix,
      kids: seq<Radix>)
    requires Tree6(nodes, roots, branch) && p in nodes && branch[p] == [] && |p| < NIBBLES && Fit(p, kids)
    ensures forall q :: q in Longer(p) ==> q !in nodes
    ensures Tree6(Grown(nodes, p, kids), roots, Branched(branch, p, kids))
  {
    hide Longer, Grown, Branched, Downward, Upward;
    ShapedExtended(nodes, branch, p, kids);
    DownwardExtended(nodes, branch, p, kids);
    UpwardExtended(nodes, branch, p, kids);
    forall q | q in Longer(p)
      ensures |q| > 1
    {
      LongerIs(p, q, 0);
    }
    forall x: Nibble
      ensures [x] in Grown(nodes, p, kids) && Grown(nodes, p, kids)[[x]] == roots[x]
    {
      GrownAt(nodes, branch, p, kids, [x]);
    }
  }

  ghost function NewSess(sess: map<Prefix, U16>, p: Prefix): (m: map<Prefix, U16>)
    ensures m.Keys == sess.Keys + Longer(p) && forall q :: q in m ==> m[q] == if q in Longer(p) then 0 else sess[q]
  {
    sess + map q | q in Longer(p) :: 0
  }

  lemma GrownKeys(nodes: map<Prefix, Radix>, branch: map<Prefix, seq<Radix>>, p: Prefix, kids: seq<Radix>)
    requires |kids| == 16 && branch.Keys == nodes.Keys && p in nodes
    ensures Grown(nodes, p, kids).Keys == nodes.Keys + Longer(p) == Branched(branch, p, kids).Keys
    ensures Grown(nodes, p, kids).Values <= nodes.Values + set n | n in kids
  {
    hide Longer;
    assert forall q :: q in Longer(p) ==> kids[q[|p|]] in kids;
  }

  lemma Store6Extended(paths: set<Prefix>, sess: map<Prefix, U16>, contents: map<Prefix, U16>, p: Prefix)
    requires Store6(paths, sess, contents) && forall q :: q in Longer(p) ==> q !in paths
    ensures Store6(paths + Longer(p), NewSess(sess, p), contents)
  {
    hide Longer;
  }

  lemma Store6Written(paths: set<Prefix>, sess: map<Prefix, U16>, contents: map<Prefix, U16>, p: Prefix, s: U16)
    requires Store6(paths, sess, contents) && p in paths
    ensures Store6(paths, sess[p := s], contents[p := s])
  {
  }

  /** Below a node that is missing there is nothing. */
  lemma {:induction false} Dead(nodes: map<Prefix, Radix>, roots: seq<Radix>, branch: map<Prefix, seq<Radix>>,
    sess: map<Prefix, U16>, contents: map<Prefix, U16>, a: Prefix, k: nat)
    requires Tree6(nodes, roots, branch) && Store6(nodes.Keys, sess, contents)
    requires 1 < k <= NIBBLES == |a| && a[..k] !in nodes
    ensures First(contents, a, k) == 0
    decreases NIBBLES - k
  {
    if k < NIBBLES {
      assert a[..k + 1][..k] == a[..k];
      Dead(nodes, roots, branch, sess, contents, a, k + 1);
    }
  }

  /** 16 nodes below a prefix. */
  method Calloc(ghost p: Prefix) returns (kids: seq<Radix>)
    ensures |kids| == 16 && Fit(p, kids) && fresh(kids)
    ensures forall x: Nibble :: kids[x].branch == [] && kids[x].sess == 0
  {
    kids := [];
    while |kids| < 16
      invariant |kids| <= 16 && fresh(kids)
      invariant forall x :: 0 <= x < |kids| ==> kids[x].path == p + [x] && kids[x].branch == [] && kids[x].sess == 0
    {
      var n := new Radix(p + [|kids|]);
      kids := kids + [n];
    }
  }

  /** The tree of the 16 roots. */
  lemma Roots(nodes: map<Prefix, Radix>, roots: seq<Radix>, branch: map<Prefix, seq<Radix>>, sess: map<Prefix, U16>)
    requires Fit([], roots) && nodes.Keys == Longer([]) == branch.Keys == sess.Keys
    requires forall x: Nibble :: [x] in nodes && nodes[[x]] == roots[x] && branch[[x]] == [] && sess[[x]] == 0
    ensures Tree6(nodes, roots, branch) && Store6(nodes.Keys, sess, map[])
  {
    forall q | q in nodes
      ensures |q| == 1 && nodes[q].path == q && branch[q] == [] && sess[q] == 0
    {
      assert q == [q[0]];
    }
  }

  lemma CountIs(ip: seq<Byte>, prefixlen: nat)
    requires |ip| == 16 && prefixlen <= 128
    ensures Count(prefixlen) == (if prefixlen / 4 > 1 then prefixlen / 4 else 1) && NibbleOf(ip, 0) == ip[0] / 16
  {
  }

  lemma Paths6(nodes: map<Prefix, Radix>, roots: seq<Radix>, branch: map<Prefix, seq<Radix>>)
    requires Tree6(nodes, roots, branch)
    ensures forall q :: q in nodes ==> nodes[q].path == q && |q| >= 1
  {
  }

  lemma Tree6Keys(nodes: map<Prefix, Radix>, roots: seq<Radix>, branch: map<Prefix, seq<Radix>>, sess: map<Prefix,
      U16>, contents: map<Prefix, U16>)
    requires Tree6(nodes, roots, branch) && Store6(nodes.Keys, sess, contents)
    ensures branch.Keys == nodes.Keys == sess.Keys
  {
  }

  class Ipv6Cache {
    const roots: seq<Radix>
    ghost var nodes: map<Prefix, Radix>
    ghost var contents: map<Prefix, U16>

    ghost function Branches(): (m: map<Prefix, seq<Radix>>)
      reads this`nodes, nodes.Values`branch
      ensures m.Keys == nodes.Keys && forall p :: p in nodes ==> m[p] == nodes[p].branch
    {
      map p | p in nodes :: nodes[p].branch
    }

    ghost function Sess(): (m: map<Prefix, U16>)
      reads this`nodes, nodes.Values`sess
      ensures m.Keys == nodes.Keys && forall p :: p in nodes ==> m[p] == nodes[p].sess
    {
      map p | p in nodes :: nodes[p].sess
    }

    ghost predicate Valid()
      reads this, nodes.Values
    {
      Tree6(nodes, roots, Branches()) && Store6(nodes.Keys, Sess(), contents)
    }

    /** lookup_ipv6map */
    method Lookup(ip: seq<Byte>) returns (s: U16)
      requires Valid() && |ip| == 16
      ensures s == First(contents, Nibbles(ip), 1)
    {
      hide Tree6, Store6, First;
      ghost var a := Nibbles(ip);
      RootOf(a);
      var curnode := roots[ip[0] / 16];
      var i := 1;
      s := curnode.sess;
      SessIs(a[..i]);
      while s == 0 && i < NIBBLES && curnode.branch != []
        invariant 1 <= i <= NIBBLES && a[..i] in nodes && curnode == nodes[a[..i]]
        invariant s == curnode.sess == Get(contents, a[..i]) && First(contents, a, 1) == First(contents, a, i)
        decreases NIBBLES - i
      {
        FirstStep(contents, a, i);
        BranchOf(a, i);
        curnode := if i % 2 == 1 then curnode.branch[ip[i / 2] % 16] else curnode.branch[ip[i / 2] / 16];
        s := curnode.sess;
        i := i + 1;
        SessIs(a[..i]);
      }
      FirstStep(contents, a, i);
      if s == 0 && i < NIBBLES {
        NoBranch(a, i);
        Dead(nodes, roots, Branches(), Sess(), contents, a, i + 1);
      }
    }

    /** 16 empty nodes, as the static roots are. */
    constructor ()
      ensures Valid() && contents == map[] && fresh(nodes.Values)
    {
      var kids := Calloc([]);
      roots := kids;
      contents := map[];
      nodes := map q | q in Longer([]) :: kids[q[0]];
      new;
      forall x: Nibble
        ensures [x] in nodes && nodes[[x]] == roots[x]
      {
        assert [x] in Longer([]);
      }
      Roots(nodes, roots, Branches(), Sess());
    }

    /** One nibble further, along a new branch if need be. */
    method Down(n: Radix, ip: seq<Byte>, i: nat) returns (n': Radix)
      requires Valid() && |ip| == 16 && 1 <= i < NIBBLES && Nibbles(ip)[..i] in nodes && n == nodes[Nibbles(ip)[..i]]
      modifies this`nodes, n`branch
      ensures Valid() && Nibbles(ip)[..i + 1] in nodes && n' == nodes[Nibbles(ip)[..i + 1]]
      ensures fresh(nodes.Values - old(nodes.Values))
    {
      hide Tree6, Store6;
      ghost var a := Nibbles(ip);
      if n.branch == [] { Extend(n, a[..i]); }
      BranchOf(a, i);
      n' := if i % 2 == 1 then n.branch[ip[i / 2] % 16] else n.branch[ip[i / 2] / 16];
    }

    /** cache_ipv6map */
    method Cache(ip: seq<Byte>, prefixlen: nat, s: U16)
      requires Valid() && |ip| == 16 && prefixlen <= 128
      modifies this, nodes.Values
      ensures Valid() && contents == old(contents)[Nibbles(ip)[..Count(prefixlen)] := s]
      ensures fresh(nodes.Values - old(nodes.Values))
    {
      hide Valid, Count, NibbleOf;
      ghost var a, n := Nibbles(ip), Count(prefixlen);
      RootOf(a);
      CountIs(ip, prefixlen);
      var curnode := roots[ip[0] / 16];
      var niblles := prefixlen / 4;
      var i := 1;
      while i < niblles
        invariant 1 <= i <= n && Valid() && a[..i] in nodes && curnode == nodes[a[..i]]
        invariant contents == old(contents) && fresh(nodes.Values - old(nodes.Values))
      {
        curnode := Down(curnode, ip, i);
        i := i + 1;
      }
      Write(curnode, a[..i], s);
    }

    method Write(n: Radix, ghost p: Prefix, s: U16)
      requires Valid() && p in nodes && nodes[p] == n
      modifies n`sess, this`contents
      ensures Valid() && contents == old(contents)[p := s]
    {
      hide Tree6, Store6;
      ghost var branch, sess := Branches(), Sess();
      Paths6(nodes, roots, branch);
      Store6Written(nodes.Keys, sess, contents, p, s);
      n.sess := s;
      contents := contents[p := s];
      assert Branches() == branch && Sess() == sess[p := s];
    }

    /** A node without branches gets 16 of them. */
    method Extend(n: Radix, ghost p: Prefix)
      requires Valid() && p in nodes && nodes[p] == n && n.branch == [] && |p| < NIBBLES
      modifies this`nodes, n`branch
      ensures Valid() && p in nodes && nodes[p] == n && n.branch != [] && fresh(nodes.Values - old(nodes.Values))
    {
      hide *;
      ghost var was, branch, sess := nodes, Branches(), Sess();
      ValidIs();
      var kids := Attach(n, p);
      nodes := Grown(was, p, kids);
      GrownKeys(was, branch, p, kids);
      GrownAt(was, branch, p, kids, p);
      LongerIs(p, p, 0);
      Regrown(was, branch, sess, p, kids);
    }

    lemma ValidIs()
      requires Valid()
      ensures Tree6(nodes, roots, Branches()) && Store6(nodes.Keys, Sess(), contents)
    {
    }

    /** The tree is whole again once the new nodes are part of it. */
    lemma Regrown(was: map<Prefix, Radix>, branch: map<Prefix, seq<Radix>>, sess: map<Prefix, U16>, p: Prefix,
        kids: seq<Radix>)
      requires Tree6(was, roots, branch) && Store6(was.Keys, sess, contents)
      requires p in was && branch[p] == [] && |p| < NIBBLES && Fit(p, kids) && |kids| == 16
      requires nodes == Grown(was, p, kids)
      requires forall q :: q in was ==>
                 && q in branch && q in sess
                 && was[q].branch == (if q == p then kids else branch[q]) && was[q].sess == sess[q]
      requires forall x: Nibble :: kids[x].branch == [] && kids[x].sess == 0
      ensures Valid()
    {
      hide Tree6, Store6, Longer, Grown, Branched, Fit, Branches, Sess, NewSess, Get;
      Tree6Keys(was, roots, branch, sess, contents);
      Tree6Extended(was, roots, branch, p, kids);
      Store6Extended(was.Keys, sess, contents, p);
      GrownKeys(was, branch, p, kids);
      Snapshots(was, branch, sess, p, kids);
    }

    /** The code's part of that. */
    method Attach(n: Radix, ghost p: Prefix) returns (kids: seq<Radix>)
      requires Valid() && p in nodes && nodes[p] == n && n.branch == []
      modifies n`branch
      ensures n.branch == kids && |kids| == 16 && Fit(p, kids) && fresh(kids) && |p| >= 1
      ensures forall x: Nibble :: kids[x].branch == [] && kids[x].sess == 0
      ensures forall q :: q in nodes ==>
              nodes[q].branch == (if q == p then kids else old(Branches())[q]) && nodes[q].sess == old(Sess())[q]
    {
      hide Tree6, Store6, Fit, Branches, Sess;
      Paths6(nodes, roots, Branches());
      kids := Calloc(p);
      n.branch := kids;
    }

    /** The tables after 16 nodes have been added. */
    lemma Snapshots(was: map<Prefix, Radix>, branch: map<Prefix, seq<Radix>>, sess: map<Prefix, U16>, p: Prefix,
        kids: seq<Radix>)
      requires |kids| == 16 && nodes == Grown(was, p, kids) && branch.Keys == was.Keys == sess.Keys && p in was
      requires forall q :: q in Longer(p) ==> q !in was
      requires forall q :: q in was ==> was[q].branch == (if q == p then kids else branch[q]) && was[q].sess == sess[q]
      requires forall x: Nibble :: kids[x].branch == [] && kids[x].sess == 0
      ensures Branches() == Branched(branch, p, kids) && Sess() == NewSess(sess, p)
    {
      hide Longer, Grown, Branched, Branches, Sess, NewSess;
      GrownKeys(was, branch, p, kids);
      forall q | q in nodes
        ensures nodes[q].branch == Branched(branch, p, kids)[q]
      {
        GrownAt(was, branch, p, kids, q);
      }
      forall q | q in nodes
        ensures nodes[q].sess == NewSess(sess, p)[q]
      {
        GrownAt(was, branch, p, kids, q);
      }
    }

    lemma RootOf(a: Prefix)
      requires Valid() && |a| == NIBBLES
      ensures |roots| == 16 && a[..1] in nodes && nodes[a[..1]] == roots[a[0]]
    {
      hide Store6, Shaped, Downward, Upward, Sess, Branches;
      assert a[..1] == [a[0]];
    }

    lemma SessIs(p: Prefix)
      requires Valid() && p in nodes
      ensures nodes[p].sess == Get(contents, p)
    {
    }

    lemma BranchOf(a: Prefix, i: nat)
      requires Valid() && i < |a| == NIBBLES && a[..i] in nodes && nodes[a[..i]].branch != []
      ensures |nodes[a[..i]].branch| == 16 && a[..i + 1] in nodes && nodes[a[..i + 1]] == nodes[a[..i]].branch[a[i]]
    {
      hide Tree6, Store6;
      Descend(nodes, roots, Branches(), a, i);
    }

    lemma NoBranch(a: Prefix, i: nat)
      requires Valid() && 1 <= i < |a| == NIBBLES && a[..i] in nodes && nodes[a[..i]].branch == []
      ensures a[..i + 1] !in nodes
    {
      hide Tree6, Store6;
      Ends(nodes, roots, Branches(), a, i);
    }
  }

  lemma Ends(nodes: map<Prefix, Radix>, roots: seq<Radix>, branch: map<Prefix, seq<Radix>>, a: Prefix, i: nat)
    requires Tree6(nodes, roots, branch) && 1 <= i < |a| == NIBBLES && a[..i] in nodes && branch[a[..i]] == []
    ensures a[..i + 1] !in nodes
  {
    hide Shaped, Downward;
    assert a[..i + 1][..i] == a[..i];
  }

  lemma Descend(nodes: map<Prefix, Radix>, roots: seq<Radix>, branch: map<Prefix, seq<Radix>>, a: Prefix, i: nat)
    requires Tree6(nodes, roots, branch) && i < |a| == NIBBLES && a[..i] in nodes && branch[a[..i]] != []
    ensures |branch[a[..i]]| == 16 && a[..i + 1] in nodes && nodes[a[..i + 1]] == branch[a[..i]][a[i]]
  {
    hide Upward;
    assert a[..i + 1] == a[..i] + [a[i]];
  }

  lemma FirstStep(m: map<Prefix, U16>, a: Prefix, k: nat)
    requires 1 <= k <= NIBBLES == |a|
    ensures First(m, a, k) ==
            if Get(m, a[..k]) != 0 then Get(m, a[..k]) else if k == NIBBLES then 0 else First(m, a, k + 1)
  {
  }
}
