/** The heartbeat packet: a header and a list of table entries, each run-length coded when that is
    shorter. Words are little-endian, as the structures are copied from memory. */
module Heartbeat {
  import opened Common
  import Rle

  const MAX_HEART_SIZE := 8192
  const HEADER_WORDS := 34
  const HEADER_SIZE := 136

  datatype Kind = Session | Bundle | Tunnel

  type Block = seq<Byte>

  /** A table entry as a heartbeat carries it. */
  datatype Element = Element(kind: Kind, id: U32, block: Block)

  /** The sizes of the three structures. */
  datatype Layout = Layout(session: nat, bundle: nat, tunnel: nat) {
    function Size(kind: Kind): nat {
      match kind
      case Session => session
      case Bundle => bundle
      case Tunnel => tunnel
    }

    /** How many changes the queue holds before it is flushed. */
    function MaxChanges(): int { MAX_HEART_SIZE / (session + 4) - 2 }

    /** What the size arithmetic of the packet builder takes for granted: a session is the largest
        structure, not absurdly small, and at least two fit. */
    predicate Sound() {
      0 < bundle <= session && 0 < tunnel <= session &&
      HEADER_SIZE + 4 * (MAX_HEART_SIZE / (session + 4)) <= session && MaxChanges() >= 0
    }
  }

  // ---- words ----

  function Le32(x: U32): (z: seq<Byte>)
    ensures |z| == 4
  {
    [x % 0x100, x / 0x100 % 0x100, x / 0x1_0000 % 0x100, x / 0x100_0000]
  }

  function Word(z: seq<Byte>, q: nat): (x: U32)
    requires q + 4 <= |z|
  {
    (z[q] as int) + 0x100 * (z[q + 1] as int) + 0x1_0000 * (z[q + 2] as int) + 0x100_0000 * (z[q + 3] as int)
  }

  lemma Digits(x: U32)
    ensures x % 0x100 + 0x100 * (x / 0x100 % 0x100) + 0x1_0000 * (x / 0x1_0000 % 0x100) +
            0x100_0000 * (x / 0x100_0000) == x
  {
    var a, b := x / 0x100, x / 0x1_0000;
    assert b == a / 0x100 && x / 0x100_0000 == b / 0x100;
  }

  lemma WordOfLe32(z: seq<Byte>, q: nat, x: U32)
    requires q + 4 <= |z| && z[q..q + 4] == Le32(x)
    ensures Word(z, q) == x
  {
    Digits(x);
    assert z[q] == Le32(x)[0] && z[q + 1] == Le32(x)[1] && z[q + 2] == Le32(x)[2] && z[q + 3] == Le32(x)[3];
  }

  function Words(ws: seq<U32>): (z: seq<Byte>)
    ensures |z| == 4 * |ws|
  {
    if ws == [] then [] else Le32(ws[0]) + Words(ws[1..])
  }

  lemma {:induction false} WordOfWords(z: seq<Byte>, q: nat, ws: seq<U32>, i: nat)
    requires i < |ws| && q + 4 * |ws| <= |z| && z[q..q + 4 * |ws|] == Words(ws)
    ensures Word(z, q + 4 * i) == ws[i]
    decreases i
  {
    hide Word, Le32;
    if i == 0 {
      assert z[q..q + 4] == Words(ws)[..4];
      WordOfLe32(z, q, ws[0]);
    } else {
      assert z[q + 4..q + 4 * |ws|] == Words(ws)[4..];
      WordOfWords(z, q + 4, ws[1..], i - 1);
    }
  }

  // ---- elements ----

  const C_HEARTBEAT: U32 := 1

  /** C_TUNNEL, C_SESSION, C_CSESSION, C_CTUNNEL, C_BUNDLE and C_CBUNDLE. */
  function TypeCode(kind: Kind, compressed: bool): U32 {
    match kind
    case Session => if compressed then 12 else 5
    case Tunnel => if compressed then 13 else 4
    case Bundle => if compressed then 18 else 17
  }

  function Typed(code: U32, more: U32, body: seq<Byte>): (z: seq<Byte>)
    ensures |z| == 8 + |body|
  {
    Le32(code) + Le32(more) + body
  }

  function Compressed(block: Block): seq<Byte> {
    Rle.Pack(block, 0, 2 * |block|).Code() + [0]
  }

  /** Compression is used when it covers the whole structure and shortens it. */
  predicate Shortens(block: Block) {
    |Rle.Pack(block, 0, 2 * |block|).Plain()| == |block| && |Compressed(block)| < |block|
  }

  function Encode(e: Element): (z: seq<Byte>)
    ensures |e.block| + 8 >= |z| >= 8
  {
    if Shortens(e.block) then Typed(TypeCode(e.kind, true), e.id, Compressed(e.block))
    else Typed(TypeCode(e.kind, false), e.id, e.block)
  }

  function EncodeAll(es: seq<Element>): seq<Byte> {
    if es == [] then [] else EncodeAll(es[..|es| - 1]) + Encode(es[|es| - 1])
  }

  // ---- parsing ----

  datatype Status = Complete | Short | Strange

  /** The elements a reader applies before it stops, and why it stopped. */
  datatype Parsed = Parsed(elements: seq<Element>, status: Status)

  function KindOf(code: U32): Option<(Kind, bool)> {
    if code == 12 then Some((Session, true)) else if code == 5 then Some((Session, false))
    else if code == 13 then Some((Tunnel, true)) else if code == 4 then Some((Tunnel, false))
    else if code == 18 then Some((Bundle, true)) else if code == 17 then Some((Bundle, false))
    else None
  }

  /** A compressed structure is unpacked into a buffer two bytes too long. */
  function Unpack(L: Layout, kind: Kind, z: seq<Byte>, q: nat): Block
    requires q <= |z|
  {
    Rle.Unpacked(z, q, L.Size(kind) + 2)
  }

  function UnpackEnd(L: Layout, kind: Kind, z: seq<Byte>, q: nat): (e: nat)
    requires q <= |z|
    ensures q <= e <= |z|
  {
    Rle.Stop(z, q, L.Size(kind) + 2)
  }

  function Prepend(e: Element, p: Parsed): Parsed { p.(elements := [e] + p.elements) }

  /** The element loop of cluster_process_heartbeat, reading `z` from `q` on. */
  function Parse(L: Layout, z: seq<Byte>, q: nat): Parsed
    requires q <= |z|
    decreases |z| - q
  {
    if q == |z| then Parsed([], Complete)
    else if q + 8 > |z| then Parsed([], Short)
    else
      match KindOf(Word(z, q))
      case None => Parsed([], Strange)
      case Some((kind, true)) =>
        var block, rest := Unpack(L, kind, z, q + 8), Parse(L, z, UnpackEnd(L, kind, z, q + 8));
        if |block| == L.Size(kind) then Prepend(Element(kind, Word(z, q + 4), block), rest) else rest
      case Some((kind, false)) =>
        var end := q + 8 + L.Size(kind);
        if end > |z| then Parsed([], Short)
        else Prepend(Element(kind, Word(z, q + 4), z[q + 8..end]), Parse(L, z, end))
  }

  lemma ParseUnfold(L: Layout, z: seq<Byte>, q: nat)
    requires q < |z|
    ensures Parse(L, z, q) ==
            if q + 8 > |z| then Parsed([], Short)
            else
              match KindOf(Word(z, q))
              case None => Parsed([], Strange)
              case Some((kind, true)) =>
                var block, rest := Unpack(L, kind, z, q + 8), Parse(L, z, UnpackEnd(L, kind, z, q + 8));
                if |block| == L.Size(kind) then Prepend(Element(kind, Word(z, q + 4), block), rest) else rest
              case Some((kind, false)) =>
                var end := q + 8 + L.Size(kind);
                if end > |z| then Parsed([], Short)
                else Prepend(Element(kind, Word(z, q + 4), z[q + 8..end]), Parse(L, z, end))
  {
    hide Word, Unpack, UnpackEnd, KindOf;
  }

  // ---- the two together ----

  predicate Fits(L: Layout, es: seq<Element>) {
    forall i :: 0 <= i < |es| ==> |es[i].block| == L.Size(es[i].kind)
  }

  lemma TypedAt(z: seq<Byte>, q: nat, code: U32, more: U32, body: seq<Byte>)
    requires q + 8 + |body| <= |z| && z[q..q + 8 + |body|] == Typed(code, more, body)
    ensures Word(z, q) == code && Word(z, q + 4) == more && z[q + 8..q + 8 + |body|] == body
  {
    hide Le32, Word;
    var t := Typed(code, more, body);
    SubSlice(z, q, t, 0, 4);
    SubSlice(z, q, t, 4, 8);
    SubSlice(z, q, t, 8, |t|);
    assert t == Le32(code) + (Le32(more) + body);
    WordOfLe32(z, q, code);
    WordOfLe32(z, q + 4, more);
  }

  lemma UnpackCompressed(block: Block, z: seq<Byte>, q: nat, room: nat)
    requires Shortens(block) && |block| < room
    requires var c := Compressed(block); q + |c| <= |z| && z[q..q + |c|] == c
    ensures Rle.Unpacked(z, q, room) == block && Rle.Stop(z, q, room) == q + |Compressed(block)|
  {
    hide Rle.Unpacked, Rle.Stop, Rle.Pack;
    var ts := Rle.Pack(block, 0, 2 * |block|);
    var c := Compressed(block);
    Rle.PackIsPrefix(block, 0, 2 * |block|);
    assert ts.Plain() == block[0..] == block;
    assert z[q..q + |ts.Code()|] == c[..|ts.Code()|];
    assert z[q + |ts.Code()|] == c[|ts.Code()|];
    Rle.UnpackStream(ts, z, q, room);
  }

  /** One element is read back as it was written. */
  lemma ParseOne(L: Layout, e: Element, z: seq<Byte>, q: nat)
    requires |e.block| == L.Size(e.kind)
    requires q + |Encode(e)| <= |z| && z[q..q + |Encode(e)|] == Encode(e)
    ensures Parse(L, z, q) == Prepend(e, Parse(L, z, q + |Encode(e)|))
  {
    hide Word, Rle.Unpacked, Rle.Stop, Rle.Pack, Compressed, Parse;
    ParseUnfold(L, z, q);
    if Shortens(e.block) {
      var c := Compressed(e.block);
      TypedAt(z, q, TypeCode(e.kind, true), e.id, c);
      UnpackCompressed(e.block, z, q + 8, L.Size(e.kind) + 2);
    } else {
      TypedAt(z, q, TypeCode(e.kind, false), e.id, e.block);
    }
  }

  lemma EncodeBack(es: seq<Element>)
    requires es != []
    ensures EncodeAll(es) == EncodeAll(es[..|es| - 1]) + Encode(es[|es| - 1])
  {
  }

  lemma {:induction false} EncodeFront(es: seq<Element>)
    requires es != []
    ensures EncodeAll(es) == Encode(es[0]) + EncodeAll(es[1..])
    decreases |es|
  {
    hide Encode, EncodeAll;
    EncodeBack(es);
    if |es| == 1 {
      EncodeNothing(es[..0]);
      EncodeNothing(es[1..]);
    } else {
      var front := es[..|es| - 1];
      EncodeFront(front);
      EncodeBack(es[1..]);
      assert front[1..] == es[1..][..|es| - 2];
    }
  }

  lemma EncodeNothing(es: seq<Element>)
    requires es == []
    ensures EncodeAll(es) == []
  {
  }

  /** Codec round trip: parsing a built heartbeat yields exactly its elements, compressed or raw, in
      order, and ends at the end of the packet. */
  lemma {:induction false} ParseEncoded(L: Layout, es: seq<Element>, z: seq<Byte>, q: nat)
    requires Fits(L, es) && q <= |z| && z[q..] == EncodeAll(es)
    ensures Parse(L, z, q) == Parsed(es, Complete)
    decreases |es|
  {
    hide Parse, Encode;
    if es == [] {
      ParseEnd(L, z, q);
    } else {
      var n := |Encode(es[0])|;
      EncodeFront(es);
      assert z[q..q + n] == EncodeAll(es)[..n];
      assert z[q + n..] == EncodeAll(es)[n..] == EncodeAll(es[1..]);
      ParseEncoded(L, es[1..], z, q + n);
      ParseOne(L, es[0], z, q);
      assert es == [es[0]] + es[1..];
    }
  }

  lemma ParseEnd(L: Layout, z: seq<Byte>, q: nat)
    requires q == |z|
    ensures Parse(L, z, q) == Parsed([], Complete)
  {
  }

  /** A structure that is not in use, all zero, costs a byte for every 127 and a stop byte, besides the heading. */
  lemma FreeEntryCost(e: Element)
    requires |e.block| >= 2 && forall i :: 0 <= i < |e.block| ==> e.block[i] == 0
    ensures |Encode(e)| == 8 + (|e.block| + 126) / 127 + 1
  {
    hide Rle.Pack;
    Rle.ZerosCost(e.block, 0, 2 * |e.block|);
  }

  // ---- what is not as it should be ----

  /** Elements are applied up to whatever follows them. */
  lemma {:induction false} ParseUpTo(L: Layout, es: seq<Element>, z: seq<Byte>, q: nat)
    requires Fits(L, es) && q + |EncodeAll(es)| <= |z| && z[q..q + |EncodeAll(es)|] == EncodeAll(es)
    ensures var rest := Parse(L, z, q + |EncodeAll(es)|); Parse(L, z, q) == Parsed(es + rest.elements, rest.status)
    decreases |es|
  {
    hide Parse, Encode, EncodeAll;
    if es == [] {
      EncodeNothing(es);
    } else {
      var n := |Encode(es[0])|;
      FrontOf(es, z, q);
      ParseUpTo(L, es[1..], z, q + n);
      ParseOne(L, es[0], z, q);
      var rest := Parse(L, z, q + |EncodeAll(es)|);
      assert [es[0]] + (es[1..] + rest.elements) == es + rest.elements;
    }
  }

  lemma FrontOf(es: seq<Element>, z: seq<Byte>, q: nat)
    requires es != [] && q + |EncodeAll(es)| <= |z| && z[q..q + |EncodeAll(es)|] == EncodeAll(es)
    ensures var n, k := |Encode(es[0])|, |EncodeAll(es)|;
            && n <= k && k - n == |EncodeAll(es[1..])|
            && z[q..q + n] == Encode(es[0]) && z[q + n..q + n + (k - n)] == EncodeAll(es[1..])
  {
    hide Encode, EncodeAll;
    var n, k := |Encode(es[0])|, |EncodeAll(es)|;
    EncodeFront(es);
    assert z[q..q + n] == EncodeAll(es)[..n];
    assert z[q + n..q + k] == EncodeAll(es)[n..];
  }

  /** Fewer than 8 bytes, or an uncompressed structure cut short, end the reading; so does a type that is none of the
      six; a compressed structure of the wrong size is passed over. */
  lemma ParseStops(L: Layout, z: seq<Byte>, q: nat)
    requires q < |z|
    ensures q + 8 > |z| ==> Parse(L, z, q) == Parsed([], Short)
    ensures q + 8 <= |z| && Word(z, q) !in [4, 5, 12, 13, 17, 18] ==> Parse(L, z, q) == Parsed([], Strange)
    ensures q + 8 <= |z| && ((Word(z, q) == 5 && q + 8 + L.session > |z|) ||
                             (Word(z, q) == 4 && q + 8 + L.tunnel > |z|) ||
                             (Word(z, q) == 17 && q + 8 + L.bundle > |z|)) ==>
              Parse(L, z, q) == Parsed([], Short)
    ensures q + 8 <= |z| ==>
              var size := match Word(z, q) case 12 => L.session case 13 => L.tunnel case 18 => L.bundle case _ => 0;
              Word(z, q) in [12, 13, 18] && |Rle.Unpacked(z, q + 8, size + 2)| != size ==>
                Parse(L, z, q) == Parse(L, z, Rle.Stop(z, q + 8, size + 2))
  {
    hide Word, Rle.Unpacked, Rle.Stop, Parse;
    ParseUnfold(L, z, q);
  }

  /** Every element costs at most 8 bytes more than its structure. */
  lemma {:induction false} EncodedSize(es: seq<Element>, size: nat)
    requires forall i :: 0 <= i < |es| ==> |es[i].block| <= size
    ensures |EncodeAll(es)| <= |es| * (8 + size)
    decreases |es|
  {
    hide Encode, EncodeAll;
    if es == [] {
      EncodeNothing(es);
    } else {
      var n := |es| - 1;
      EncodeBack(es);
      EncodedSize(es[..n], size);
      assert (n + 1) * (8 + size) == n * (8 + size) + (8 + size);
    }
  }

  lemma Quotient(size: nat, n: nat)
    requires HEADER_SIZE + 4 * (MAX_HEART_SIZE / (size + 4)) <= size && n <= MAX_HEART_SIZE / (size + 4) - 1
    ensures 8 + HEADER_SIZE + n * (8 + size) <= MAX_HEART_SIZE
  {
    var q := MAX_HEART_SIZE / (size + 4);
    Multiple(MAX_HEART_SIZE, size + 4);
    Monotone(n, q - 1, 8 + size);
    Spread(q, size);
  }

  lemma Multiple(x: nat, d: nat)
    requires d > 0
    ensures x / d * d <= x
  {
  }

  lemma Monotone(n: int, m: int, d: nat)
    requires n <= m
    ensures n * d <= m * d
  {
  }

  lemma Spread(q: int, size: int)
    ensures (q - 1) * (8 + size) == q * (size + 4) + 4 * q - (8 + size)
  {
  }

  /** The header and MAX_CHANGES + 1 changes always fit. */
  lemma ChangesFit(L: Layout, es: seq<Element>)
    requires Fits(L, es) && L.Sound() && |es| <= L.MaxChanges() + 1
    ensures 8 + HEADER_SIZE + |EncodeAll(es)| <= MAX_HEART_SIZE
  {
    hide EncodeAll;
    EncodedSize(es, L.session);
    Quotient(L.session, |es|);
  }
}
