/** What one heartbeat says: the header, every queued change, and as much of a cyclic walk of each
    table as still fits. */
module ClusterPacket {
  import opened Common
  import opened Heartbeat
  import opened ClusterTables

  const HB_VERSION: U32 := 9

  // ---- the header ----

  datatype Header = Header(
    seqno: U32, basetime: U32, cluster: U32, highest: Trio<U32>, free: U32,
    sizes: Trio<U32>, interval: U32, timeout: U32, versionLow: U32, versionHigh: U32)

  /** The header structure word by word, with the padding that aligns the 64-bit table version. */
  function HeaderWords(h: Header): (ws: seq<U32>)
    ensures |ws| == HEADER_WORDS
  {
    [HB_VERSION, h.seqno, h.basetime, h.cluster, h.highest.session, h.free, h.highest.bundle, h.highest.tunnel,
     h.sizes.session, h.sizes.bundle, h.sizes.tunnel, h.interval, h.timeout, 0, h.versionLow, h.versionHigh,
     0, 0, 0, 0, 0, 0, 0, 0, 0, 0, 0, 0, 0, 0, 0, 0, 0, 0]
  }

  function EncodeHeader(h: Header): (z: seq<Byte>)
    ensures |z| == 8 + HEADER_SIZE
  {
    Typed(C_HEARTBEAT, HB_VERSION, Words(HeaderWords(h)))
  }

  function DecodeHeader(z: seq<Byte>): Header
    requires |z| >= 8 + HEADER_SIZE
  {
    Header(Word(z, 12), Word(z, 16), Word(z, 20), Trio(Word(z, 24), Word(z, 32), Word(z, 36)), Word(z, 28),
           Trio(Word(z, 40), Word(z, 44), Word(z, 48)), Word(z, 52), Word(z, 56), Word(z, 64), Word(z, 68))
  }

  lemma HeaderWord(h: Header, z: seq<Byte>, i: nat)
    requires EncodeHeader(h) <= z && i < HEADER_WORDS
    ensures Word(z, 8 + 4 * i) == HeaderWords(h)[i]
  {
    hide Word, HeaderWords;
    var ws := HeaderWords(h);
    assert z[0..8 + HEADER_SIZE] == EncodeHeader(h);
    TypedAt(z, 0, C_HEARTBEAT, HB_VERSION, Words(ws));
    WordOfWords(z, 8, ws, i);
  }

  lemma HeaderFields(h: Header)
    ensures var ws := HeaderWords(h);
            h == Header(ws[1], ws[2], ws[3], Trio(ws[4], ws[6], ws[7]), ws[5],
                        Trio(ws[8], ws[9], ws[10]), ws[11], ws[12], ws[14], ws[15])
  {
  }

  /** Every header field is read back. */
  lemma HeaderRoundTrip(h: Header, z: seq<Byte>)
    requires EncodeHeader(h) <= z
    ensures DecodeHeader(z) == h && Word(z, 0) == C_HEARTBEAT && Word(z, 4) == HB_VERSION
  {
    hide Word, HeaderWords;
    assert z[0..8 + HEADER_SIZE] == EncodeHeader(h);
    TypedAt(z, 0, C_HEARTBEAT, HB_VERSION, Words(HeaderWords(h)));
    HeaderWord(h, z, 1); HeaderWord(h, z, 2); HeaderWord(h, z, 3); HeaderWord(h, z, 4);
    HeaderWord(h, z, 5); HeaderWord(h, z, 6); HeaderWord(h, z, 7); HeaderWord(h, z, 8);
    HeaderWord(h, z, 9); HeaderWord(h, z, 10); HeaderWord(h, z, 11); HeaderWord(h, z, 12);
    HeaderWord(h, z, 14); HeaderWord(h, z, 15);
    var ws := HeaderWords(h);
    HeaderFields(h);
    assert DecodeHeader(z) == Header(ws[1], ws[2], ws[3], Trio(ws[4], ws[6], ws[7]), ws[5],
                                     Trio(ws[8], ws[9], ws[10]), ws[11], ws[12], ws[14], ws[15]);
  }

  // ---- the change queue ----

  datatype Key = Key(kind: Kind, id: U32)

  function Remove(q: seq<Key>, i: nat): (r: seq<Key>)
    requires i < |q|
    ensures |r| == |q| - 1
  {
    q[..i] + q[i + 1..]
  }

  /** Where `k` is queued, or the length of the queue when it is not. */
  function Find(q: seq<Key>, k: Key): (i: nat)
    ensures i <= |q| && (i < |q| ==> q[i] == k)
    ensures forall j :: 0 <= j < i ==> q[j] != k
  {
    if q == [] || q[0] == k then 0 else 1 + Find(q[1..], k)
  }

  /** type_changed: `k` moves to, or joins, the end of the queue. */
  function Requeued(q: seq<Key>, k: Key): (r: seq<Key>)
    ensures forall x :: x in r <==> x in q || x == k
    ensures |r| == |q| + if k in q then 0 else 1
  {
    if Find(q, k) < |q| then Remove(q, Find(q, k)) + [k] else q + [k]
  }

  ghost predicate Distinct(q: seq<Key>) {
    forall i, j :: 0 <= i < j < |q| ==> q[i] != q[j]
  }

  /** What is queued besides `k`, in its order. */
  function Without(q: seq<Key>, k: Key): seq<Key> {
    if q == [] then [] else Without(q[..|q| - 1], k) + if q[|q| - 1] == k then [] else [q[|q| - 1]]
  }

  lemma {:induction false} WithoutNone(q: seq<Key>, k: Key)
    requires k !in q
    ensures Without(q, k) == q
    decreases |q|
  {
    if q != [] {
      WithoutNone(q[..|q| - 1], k);
      assert q[|q| - 1] != k;
    }
  }

  lemma {:induction false} WithoutOne(q: seq<Key>, i: nat)
    requires Distinct(q) && i < |q|
    ensures Without(q, q[i]) == Remove(q, i)
    decreases |q|
  {
    var n := |q| - 1;
    if i == n {
      WithoutNone(q[..n], q[n]);
    } else {
      WithoutOne(q[..n], i);
      assert Remove(q, i) == Remove(q[..n], i) + [q[n]];
    }
  }

  /** Every id stays queued at most once; the one that changed is last, and the others keep their order. */
  lemma RequeuedDistinct(q: seq<Key>, k: Key)
    requires Distinct(q)
    ensures Distinct(Requeued(q, k)) && Requeued(q, k) == Without(q, k) + [k]
  {
    if Find(q, k) < |q| {
      WithoutOne(q, Find(q, k));
      RemovedDistinct(q, Find(q, k));
    } else {
      WithoutNone(q, k);
    }
  }

  lemma RemovedDistinct(q: seq<Key>, i: nat)
    requires Distinct(q) && i < |q|
    ensures Distinct(Remove(q, i) + [q[i]])
  {
    var r := Remove(q, i) + [q[i]];
    forall x, y | 0 <= x < y < |r|
      ensures r[x] != r[y]
    {
      assert r[x] == q[if x < i then x else x + 1];
      assert y < |q| - 1 ==> r[y] == q[if y < i then y else y + 1];
    }
  }

  // ---- elements ----

  /** The bytes of entry `id`, which on a master is always defined. */
  function ContentOf(L: Layout, t: seq<Slot>, kind: Kind, id: nat): (b: Block) {
    if id < |t| && t[id].Defined? then t[id].block else Free(L, kind)
  }

  function ElementOf(L: Layout, slots: Trio<seq<Slot>>, k: Key): Element {
    Element(k.kind, k.id, ContentOf(L, slots.Get(k.kind), k.kind, k.id))
  }

  function ElementsOf(L: Layout, slots: Trio<seq<Slot>>, ks: seq<Key>): (es: seq<Element>)
    ensures |es| == |ks| && forall i :: 0 <= i < |ks| ==> es[i] == ElementOf(L, slots, ks[i])
  {
    seq(|ks|, i requires 0 <= i < |ks| => ElementOf(L, slots, ks[i]))
  }

  /** Every entry is defined and has the size of its kind. */
  ghost predicate Full(L: Layout, slots: Trio<seq<Slot>>) {
    forall kind, i :: 0 <= i < |slots.Get(kind)| ==>
      slots.Get(kind)[i].Defined? && |slots.Get(kind)[i].block| == L.Size(kind)
  }

  lemma ElementsFit(L: Layout, slots: Trio<seq<Slot>>, ks: seq<Key>)
    requires Full(L, slots)
    ensures Fits(L, ElementsOf(L, slots, ks))
  {
  }

  // ---- the walk ----

  /** Space the builder keeps free beyond the entry it is about to add. */
  function Reserve(L: Layout, kind: Kind): nat {
    if kind == Session then 2 * L.session else L.Size(kind)
  }

  function Start(w: U32): (i: U32)
    ensures i > 0
  {
    if w == 0 then 1 else w
  }

  function Advance(w: U32, highest: U32): (w': U32)
    ensures w' <= highest
  {
    (1 + w) % (highest + 1)
  }

  predicate HasRoom(L: Layout, kind: Kind, size: nat) { size + 8 + Reserve(L, kind) < MAX_HEART_SIZE }

  /** The ids one walk adds to a packet of `size` bytes, at most `left` of them, starting at `w`. */
  function Walked(L: Layout, slots: Trio<seq<Slot>>, kind: Kind, highest: U32, w: U32, size: nat,
      left: nat): (ks: seq<Key>)
    ensures |ks| <= left
    decreases left
  {
    if !HasRoom(L, kind, size) || left == 0 then []
    else
      var k := Key(kind, Start(w));
      var size' := size + |Encode(ElementOf(L, slots, k))|;
      [k] + Walked(L, slots, kind, highest, Advance(Start(w), highest), size', left - 1)
  }

  /** Where the next walk will start. */
  function WalkEnd(L: Layout, slots: Trio<seq<Slot>>, kind: Kind, highest: U32, w: U32, size: nat, left: nat): (w': U32)
    decreases left
  {
    if !HasRoom(L, kind, size) then w
    else if left == 0 then Start(w)
    else
      var k := Key(kind, Start(w));
      var size' := size + |Encode(ElementOf(L, slots, k))|;
      WalkEnd(L, slots, kind, highest, Advance(Start(w), highest), size', left - 1)
  }

  lemma WalkStops(L: Layout, slots: Trio<seq<Slot>>, kind: Kind, highest: U32, w: U32, size: nat, left: nat)
    requires !HasRoom(L, kind, size) || left == 0
    ensures Walked(L, slots, kind, highest, w, size, left) == []
    ensures WalkEnd(L, slots, kind, highest, w, size, left) == if HasRoom(L, kind, size) then Start(w) else w
  {
  }

  lemma WalkGoesOn(L: Layout, slots: Trio<seq<Slot>>, kind: Kind, highest: U32, w: U32, size: nat, left: nat)
    requires HasRoom(L, kind, size) && left > 0
    ensures var k, w' := Key(kind, Start(w)), Advance(Start(w), highest);
            var size' := size + |Encode(ElementOf(L, slots, k))|;
            && Walked(L, slots, kind, highest, w, size, left) ==
               [k] + Walked(L, slots, kind, highest, w', size', left - 1)
            && WalkEnd(L, slots, kind, highest, w, size, left) == WalkEnd(L, slots, kind, highest, w', size', left - 1)
  {
    hide Encode, ElementOf, Advance;
  }

  lemma AtLeast(d: int, n: nat)
    requires d >= 1
    ensures d * n >= n
  {
    assert d * n == (d - 1) * n + n;
  }

  lemma ModUnique(x: int, n: nat, q: int, r: nat)
    requires x == q * n + r && r < n
    ensures x % n == r
  {
    var q', r' := x / n, x % n;
    assert x == n * q' + r';
    assert (q - q') * n == r' - r;
    assert (q' - q) * n == r - r';
    if q > q' { AtLeast(q - q', n); }
    if q < q' { AtLeast(q' - q, n); }
  }

  lemma DropOne(x: nat, n: nat)
    requires n > 0
    ensures (x + n) % n == x % n
  {
    assert x + n == (x / n + 1) * n + x % n;
    ModUnique(x + n, n, x / n + 1, x % n);
  }

  lemma AdvanceIs(w: U32, highest: U32)
    requires 0 < w <= highest
    ensures Advance(w, highest) == if w == highest then 0 else w + 1
  {
    ModUnique(1 + w, highest + 1, if w == highest then 1 else 0, if w == highest then 0 else w + 1);
  }

  /** The walk is cyclic over 1..highest: the k-th id added is k places after the start. */
  lemma {:induction false} WalkIsCyclic(L: Layout, slots: Trio<seq<Slot>>, kind: Kind, highest: U32, w: U32,
      size: nat, left: nat, k: nat)
    requires w <= highest && highest > 0
    requires k < |Walked(L, slots, kind, highest, w, size, left)|
    ensures Walked(L, slots, kind, highest, w, size, left)[k] == Key(kind, 1 + (Start(w) - 1 + k) % highest)
    decreases left
  {
    hide Encode, ElementOf, Advance, HasRoom;
    var size' := size + |Encode(ElementOf(L, slots, Key(kind, Start(w))))|;
    var w' := Advance(Start(w), highest);
    if k > 0 {
      WalkIsCyclic(L, slots, kind, highest, w', size', left - 1, k - 1);
      AdvanceIs(Start(w), highest);
      if Start(w) == highest { DropOne(k - 1, highest); }
    } else {
      ModUnique(Start(w) - 1, highest, 0, Start(w) - 1);
    }
  }

  /** Everything one heartbeat carries: the queued changes, then the session, tunnel and bundle walks. */
  function Carried(L: Layout, slots: Trio<seq<Slot>>, highest: Trio<U32>, walk: Trio<U32>,
      changes: seq<Key>): seq<Key>
  {
    var s := changes + WalkOf(L, slots, highest, walk, changes, Session);
    var t := s + WalkOf(L, slots, highest, walk, s, Tunnel);
    t + WalkOf(L, slots, highest, walk, t, Bundle)
  }

  function SizeOf(L: Layout, slots: Trio<seq<Slot>>, ks: seq<Key>): nat {
    8 + HEADER_SIZE + |EncodeAll(ElementsOf(L, slots, ks))|
  }

  function WalkOf(L: Layout, slots: Trio<seq<Slot>>, highest: Trio<U32>, walk: Trio<U32>, before: seq<Key>,
      kind: Kind): seq<Key>
  {
    Walked(L, slots, kind, highest.Get(kind), walk.Get(kind), SizeOf(L, slots, before), highest.Get(kind))
  }

  function NextWalk(L: Layout, slots: Trio<seq<Slot>>, highest: Trio<U32>, walk: Trio<U32>, before: seq<Key>,
      kind: Kind): U32
  {
    WalkEnd(L, slots, kind, highest.Get(kind), walk.Get(kind), SizeOf(L, slots, before), highest.Get(kind))
  }

  function NextWalks(L: Layout, slots: Trio<seq<Slot>>, highest: Trio<U32>, walk: Trio<U32>,
      changes: seq<Key>): Trio<U32>
  {
    var s := changes + WalkOf(L, slots, highest, walk, changes, Session);
    var t := s + WalkOf(L, slots, highest, walk, s, Tunnel);
    Trio(NextWalk(L, slots, highest, walk, changes, Session),
         NextWalk(L, slots, highest, walk, t, Bundle),
         NextWalk(L, slots, highest, walk, s, Tunnel))
  }

  function Packet(L: Layout, h: Header, slots: Trio<seq<Slot>>, ks: seq<Key>): seq<Byte> {
    EncodeHeader(h) + EncodeAll(ElementsOf(L, slots, ks))
  }

  // ---- size ----

  lemma SizeOfAppend(L: Layout, slots: Trio<seq<Slot>>, ks: seq<Key>, k: Key)
    ensures SizeOf(L, slots, ks + [k]) == SizeOf(L, slots, ks) + |Encode(ElementOf(L, slots, k))|
    ensures EncodeAll(ElementsOf(L, slots, ks + [k])) ==
            EncodeAll(ElementsOf(L, slots, ks)) + Encode(ElementOf(L, slots, k))
  {
    hide Encode, EncodeAll, ElementOf;
    var es := ElementsOf(L, slots, ks + [k]);
    EncodeBack(es);
    assert es[..|es| - 1] == ElementsOf(L, slots, ks);
  }

  /** A walk never takes the packet beyond its limit. */
  lemma {:induction false} WalkFits(L: Layout, slots: Trio<seq<Slot>>, kind: Kind, highest: U32, w: U32,
      before: seq<Key>, left: nat)
    requires Full(L, slots) && SizeOf(L, slots, before) <= MAX_HEART_SIZE
    ensures var ks := Walked(L, slots, kind, highest, w, SizeOf(L, slots, before), left);
            SizeOf(L, slots, before + ks) <= MAX_HEART_SIZE
    decreases left
  {
    hide Encode, SizeOf, Full;
    var size := SizeOf(L, slots, before);
    var ks := Walked(L, slots, kind, highest, w, size, left);
    if !HasRoom(L, kind, size) || left == 0 {
      assert before + ks == before;
    } else {
      var k := Key(kind, Start(w));
      SizeOfAppend(L, slots, before, k);
      EntrySize(L, slots, k);
      WalkFits(L, slots, kind, highest, Advance(Start(w), highest), before + [k], left - 1);
      var rest := Walked(L, slots, kind, highest, Advance(Start(w), highest), SizeOf(L, slots, before + [k]), left - 1);
      assert before + ks == before + [k] + rest;
    }
  }

  lemma EntrySize(L: Layout, slots: Trio<seq<Slot>>, k: Key)
    requires Full(L, slots)
    ensures |Encode(ElementOf(L, slots, k))| <= 8 + L.Size(k.kind)
  {
  }

  /** No heartbeat exceeds MAX_HEART_SIZE, with up to MAX_CHANGES + 1 changes and the three walks. */
  lemma HeartbeatFits(L: Layout, h: Header, slots: Trio<seq<Slot>>, highest: Trio<U32>, walk: Trio<U32>,
      changes: seq<Key>)
    requires L.Sound() && Full(L, slots) && |changes| <= L.MaxChanges() + 1
    ensures |Packet(L, h, slots, Carried(L, slots, highest, walk, changes))| <= MAX_HEART_SIZE
  {
    hide EncodeAll, Full, Walked, Encode;
    ElementsFit(L, slots, changes);
    ChangesFit(L, ElementsOf(L, slots, changes));
    WalkFits(L, slots, Session, highest.session, walk.session, changes, highest.session);
    var s := changes + WalkOf(L, slots, highest, walk, changes, Session);
    WalkFits(L, slots, Tunnel, highest.tunnel, walk.tunnel, s, highest.tunnel);
    var t := s + WalkOf(L, slots, highest, walk, s, Tunnel);
    WalkFits(L, slots, Bundle, highest.bundle, walk.bundle, t, highest.bundle);
  }

  /** A reader of a built heartbeat finds the header and exactly the entries carried, as they stood. */
  lemma PacketRoundTrip(L: Layout, h: Header, slots: Trio<seq<Slot>>, ks: seq<Key>)
    requires Full(L, slots)
    ensures var z := Packet(L, h, slots, ks);
            && |z| >= 8 + HEADER_SIZE && DecodeHeader(z) == h
            && Word(z, 0) == C_HEARTBEAT && Word(z, 4) == HB_VERSION
            && Parse(L, z, 8 + HEADER_SIZE) == Parsed(ElementsOf(L, slots, ks), Complete)
  {
    hide Parse, EncodeAll, EncodeHeader, DecodeHeader, Word;
    var z := Packet(L, h, slots, ks);
    HeaderRoundTrip(h, z);
    ElementsFit(L, slots, ks);
    ParseEncoded(L, ElementsOf(L, slots, ks), z, 8 + HEADER_SIZE);
  }
}
