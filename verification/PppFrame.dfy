/** L2TP data messages: one routine writes the headers forward into a buffer and copies the payload behind
    them, the other prepends them backwards in place. Both make the same message. */
module PppFrame {
  import opened Common

  const PPPLCP: U16 := 0xC021
  const PPPMP: U16 := 0x003D
  const MAX_HEADER := 16

  /** All that decides the header: far ids, flags of the session, the protocol, and for a multilink fragment
      its number and bits. */
  datatype Frame = Frame(tunnel: U16, session: U16, prio: bool, acfc: bool, pfc: bool, mssf: bool, mtype: U16,
                         mp: Option<Fragment>)

  datatype Fragment = Fragment(num: U32, bits: Byte)

  /** The short multilink header: 12 bits of the number, with the flags or-ed into the low byte. */
  function Short(num: U32, bits: Byte): U16 { Or(num % 0x1000, bits) }

  /** Bitwise or. */
  function Or(x: nat, y: nat): (z: nat)
    ensures z <= x + y
  {
    if x == 0 && y == 0 then 0 else 2 * Or(x / 2, y / 2) + if x % 2 == 1 || y % 2 == 1 then 1 else 0
  }

  /** The multilink header, and the protocol of the packet that begins. */
  function MpHeader(f: Frame): (z: seq<Byte>)
    ensures |z| <= 6
  {
    match f.mp
    case None => []
    case Some(m) =>
      (if f.mssf then Be16(Short(m.num, m.bits))
        else [m.bits, m.num / 0x1_0000 % 0x100, m.num / 0x100 % 0x100, m.num % 0x100])
      + if BeginBit(m.bits) then Be16(f.mtype) else []
  }

  function Type(f: Frame): U16 { if f.mp.Some? then PPPMP else f.mtype }

  function PppHeader(f: Frame): (z: seq<Byte>)
    ensures |z| <= 4
  {
    (if Type(f) == PPPLCP || !f.acfc then Be16(0xFF03) else [])
    + if Type(f) < 0x100 && f.pfc then [Type(f)] else Be16(Type(f))
  }

  function L2tpHeader(f: Frame): (z: seq<Byte>)
    ensures |z| == 6
  {
    Be16(if f.prio then 0x0102 else 0x0002) + Be16(f.tunnel) + Be16(f.session)
  }

  function Header(f: Frame): (z: seq<Byte>)
    ensures |z| <= MAX_HEADER
  {
    L2tpHeader(f) + PppHeader(f) + MpHeader(f)
  }

  // ---- the two routines ----

  class Bundle {
    var num_of_links: nat
    var seq_num_t: U32
  }

  /** The settings of a session and the far end of its tunnel. */
  datatype Session = Session(tunnel: U16, far: U16, acfc: bool, pfc: bool, mssf: bool)

  /** The message a call makes: multilink only when the bundle has more than one link. */
  function FrameOf(s: Session, mtype: U16, prio: bool, bid: Bundle?, mp_bits: Byte): Frame
    reads bid
  {
    Frame(s.tunnel, s.far, prio, s.acfc, s.pfc, s.mssf, mtype,
          if bid != null && bid.num_of_links > 1 then Some(Fragment(bid.seq_num_t, mp_bits)) else None)
  }

  /** The number the next fragment gets. */
  function Bumped(num: U32): U32 { (num + 1) % WORD }

  /** `z` was put in front of place `k`, from `q` on; nothing else has changed. */
  ghost predicate Grown(was: seq<Byte>, now: seq<Byte>, k: nat, q: nat, z: seq<Byte>) {
    && |now| == |was| && q + |z| == k <= |was|
    && now[q..] == z + was[k..] && now[..q] == was[..q]
  }

  lemma GrownMore(was: seq<Byte>, mid: seq<Byte>, now: seq<Byte>, k: nat, q: nat, z: seq<Byte>, q': nat, y: seq<Byte>)
    requires Grown(was, mid, k, q, z) && Grown(mid, now, q, q', y)
    ensures Grown(was, now, k, q', y + z)
  {
    assert now[..q'] == mid[..q'] == mid[..q][..q'] == was[..q'];
    assert now[q'..] == y + (z + was[k..]) == y + z + was[k..];
  }

  /** Writes `z` in front of what is there. */
  method Prepend(b: array<Byte>, q: nat, z: seq<Byte>, ghost was: seq<Byte>, ghost k: nat,
      ghost y: seq<Byte>) returns (q': nat)
    requires |z| <= q <= b.Length && Grown(was, b[..], k, q, y)
    modifies b
    ensures q' == q - |z| && Grown(was, b[..], k, q', z + y)
  {
    ghost var mid := b[..];
    q' := q - |z|;
    var i := 0;
    while i < |z|
      invariant 0 <= i <= |z| && b[..q'] == mid[..q'] && b[q'..q' + i] == z[..i] && b[q..] == mid[q..]
    {
      b[q' + i] := z[i];
      i := i + 1;
    }
    assert b[q'..] == b[q'..q] + b[q..];
    assert Grown(mid, b[..], q, q', z);
    GrownMore(was, mid, b[..], k, q, y, q', z);
  }

  /** The message type, and for the protocol field the type of the message or that of multilink. */
  method AppendPpp(b: array<Byte>, q: nat, s: Session, proto: U16, ghost f: Frame) returns (q': nat)
    requires q + 4 <= b.Length && f.acfc == s.acfc && f.pfc == s.pfc && Type(f) == proto
    modifies b
    ensures q' == q + |PppHeader(f)| && b[..q'] == old(b[..q]) + PppHeader(f)
  {
    hide Be16, Type;
    q' := q;
    if proto == PPPLCP || !s.acfc { q' := Append(b, q', Be16(0xFF03)); }
    if proto < 0x100 && s.pfc {
      q' := Append(b, q', [proto]);
    } else {
      q' := Append(b, q', Be16(proto));
    }
    assert b[..q'] == old(b[..q]) + PppHeader(f);
  }

  method AppendMp(b: array<Byte>, q: nat, s: Session, multi: Bundle, mtype: U16, mp_bits: Byte,
      ghost f: Frame) returns (q': nat)
    requires q + 6 <= b.Length && f.mssf == s.mssf && f.mtype == mtype
    requires f.mp == Some(Fragment(multi.seq_num_t, mp_bits))
    modifies b, multi`seq_num_t
    ensures q' == q + |MpHeader(f)| && b[..q'] == old(b[..q]) + MpHeader(f)
    ensures multi.seq_num_t == Bumped(old(multi.seq_num_t))
  {
    hide Be16, Short;
    if s.mssf {
      q' := Append(b, q, Be16(Short(multi.seq_num_t, mp_bits)));
    } else {
      q' := Append(b, q, Be32(multi.seq_num_t));
      b[q] := mp_bits;
      assert b[..q'] == old(b[..q]) + [mp_bits] + Be32(multi.seq_num_t)[1..];
    }
    multi.seq_num_t := (multi.seq_num_t + 1) % WORD;
    if BeginBit(mp_bits) { q' := Append(b, q', Be16(mtype)); }
    assert b[..q'] == old(b[..q]) + MpHeader(f);
  }

  method AppendL2tp(b: array<Byte>, s: Session, prio: bool, ghost f: Frame) returns (q: nat)
    requires 6 <= b.Length && f.prio == prio && f.tunnel == s.tunnel && f.session == s.far
    modifies b
    ensures q == 6 && b[..q] == L2tpHeader(f)
  {
    hide Be16;
    q := Append(b, 0, Be16(if prio then 0x0102 else 0x0002));
    q := Append(b, q, Be16(s.tunnel));
    q := Append(b, q, Be16(s.far));
  }

  /** makeppp: the header forward from the start of the buffer, then a copy of the payload. A payload that
      does not fit is refused, but only after its sequence number has been used up. */
  method MakePpp(b: array<Byte>, size: nat, p: seq<Byte>, s: Session, mtype: U16, prio: bool, bid: Bundle?,
      mp_bits: Byte)
    returns (start: Option<nat>)
    requires size <= b.Length
    modifies b, if bid == null then {} else {bid}`seq_num_t
    ensures var f := old(FrameOf(s, mtype, prio, bid, mp_bits));
            && (start.Some? <==> size >= MAX_HEADER && |Header(f)| + |p| <= size)
            && (start.Some? ==> start.value == |Header(f)| && b[..|Header(f)| + |p|] == Header(f) + p)
            && (bid != null ==>
                  bid.seq_num_t ==
                  if f.mp.Some? && size >= MAX_HEADER then Bumped(old(bid.seq_num_t)) else old(bid.seq_num_t))
  {
    hide L2tpHeader, PppHeader, MpHeader, Bumped;
    ghost var f := FrameOf(s, mtype, prio, bid, mp_bits);
    NoMpHeader(f);
    var multi := bid;
    var proto := mtype;
    if size < MAX_HEADER { return None; }
    var q := AppendL2tp(b, s, prio, f);
    if multi != null {
      if multi.num_of_links > 1 {
        proto := PPPMP;
      } else {
        multi := null;
      }
    }
    q := AppendPpp(b, q, s, proto, f);
    if multi != null { q := AppendMp(b, q, s, multi, mtype, mp_bits, f); }
    assert b[..q] == Header(f);
    if q + |p| > size { return None; }
    var end := Append(b, q, p);
    return Some(q);
  }

  lemma NoMpHeader(f: Frame)
    ensures f.mp.None? ==> MpHeader(f) == []
  {
  }

  method PrependPpp(b: array<Byte>, q: nat, s: Session, proto: U16, ghost f: Frame, ghost was: seq<Byte>,
      ghost k: nat, ghost y: seq<Byte>)
    returns (q': nat)
    requires 4 <= q <= b.Length && f.acfc == s.acfc && f.pfc == s.pfc && Type(f) == proto && Grown(was, b[..], k, q, y)
    modifies b
    ensures q' + |PppHeader(f)| == q && Grown(was, b[..], k, q', PppHeader(f) + y)
  {
    hide Be16, Type, Grown;
    ghost var z;
    if proto < 0x100 && s.pfc {
      q' := Prepend(b, q, [proto], was, k, y);
      z := [proto];
    } else {
      q' := Prepend(b, q, Be16(proto), was, k, y);
      z := Be16(proto);
    }
    if proto == PPPLCP || !s.acfc {
      q' := Prepend(b, q', Be16(0xFF03), was, k, z + y);
      assert Be16(0xFF03) + (z + y) == Be16(0xFF03) + z + y;
    } else {
      assert PppHeader(f) == [] + z == z;
    }
  }

  method PrependMp(b: array<Byte>, k: nat, s: Session, multi: Bundle, mtype: U16, mp_bits: Byte, ghost f: Frame,
      ghost was: seq<Byte>)
    returns (q': nat)
    requires 6 <= k <= b.Length && f.mssf == s.mssf && f.mtype == mtype
    requires f.mp == Some(Fragment(multi.seq_num_t, mp_bits))
    requires was == b[..]
    modifies b, multi`seq_num_t
    ensures q' + |MpHeader(f)| == k && Grown(was, b[..], k, q', MpHeader(f))
    ensures multi.seq_num_t == Bumped(old(multi.seq_num_t))
  {
    hide Be16, Short, Grown, BeginBit, MpHeader;
    GrownNot(was, k);
    MpHeaderIs(f);
    q' := k;
    ghost var y: seq<Byte> := [];
    if BeginBit(mp_bits) {
      q' := Prepend(b, q', Be16(mtype), was, k, []);
      y := Be16(mtype);
      assert Be16(mtype) + [] == y;
    }
    if s.mssf {
      q' := Prepend(b, q', Be16(Short(multi.seq_num_t, mp_bits)), was, k, y);
    } else {
      q' := Prepend(b, q', Be32(multi.seq_num_t), was, k, y);
      GrownFirst(was, b[..], k, q', Be32(multi.seq_num_t) + y, mp_bits);
      b[q'] := mp_bits;
    }
    multi.seq_num_t := (multi.seq_num_t + 1) % WORD;
  }

  /** The multilink header from the end to the front: the protocol of a packet that begins, the number, and in
      its first byte, if it is a long one, the bits. */
  lemma MpHeaderIs(f: Frame)
    requires f.mp.Some?
    ensures var m := f.mp.value; var y := if BeginBit(m.bits) then Be16(f.mtype) else [];
            MpHeader(f) == if f.mssf then Be16(Short(m.num, m.bits)) + y else (Be32(m.num) + y)[0 := m.bits]
  {
    hide Be16, Short, BeginBit;
  }

  lemma GrownNot(was: seq<Byte>, k: nat)
    requires k <= |was|
    ensures Grown(was, was, k, k, [])
  {
  }

  lemma GrownFirst(was: seq<Byte>, now: seq<Byte>, k: nat, q: nat, z: seq<Byte>, x: Byte)
    requires Grown(was, now, k, q, z) && z != []
    ensures q < |now| && Grown(was, now[q := x], k, q, z[0 := x])
  {
    var l, r := now[q := x][q..], z[0 := x] + was[k..];
    assert forall i :: 0 < i < |l| ==> l[i] == now[q..][i];
  }

  method PrependL2tp(b: array<Byte>, q: nat, s: Session, prio: bool, ghost f: Frame, ghost was: seq<Byte>,
      ghost k: nat, ghost y: seq<Byte>)
    returns (q': nat)
    requires 6 <= q <= b.Length && f.prio == prio && f.tunnel == s.tunnel && f.session == s.far
    requires Grown(was, b[..], k, q, y)
    modifies b
    ensures q' + 6 == q && Grown(was, b[..], k, q', L2tpHeader(f) + y)
  {
    hide Be16, Grown;
    ghost var t, u, v := Be16(s.far), Be16(s.tunnel), Be16(if prio then 0x0102 else 0x0002);
    q' := Prepend(b, q, Be16(s.far), was, k, y);
    q' := Prepend(b, q', Be16(s.tunnel), was, k, t + y);
    q' := Prepend(b, q', Be16(if prio then 0x0102 else 0x0002), was, k, u + (t + y));
    assert v + (u + (t + y)) == v + u + t + y;
  }

  /** opt_makeppp: the payload is at `k` and stays there; the headers go in front of it, last one first. */
  method OptMakePpp(b: array<Byte>, k: nat, s: Session, mtype: U16, prio: bool, bid: Bundle?,
      mp_bits: Byte) returns (start: nat)
    requires MAX_HEADER <= k <= b.Length
    modifies b, if bid == null then {} else {bid}`seq_num_t
    ensures var f := old(FrameOf(s, mtype, prio, bid, mp_bits));
            && start + |Header(f)| == k && b[start..] == Header(f) + old(b[k..]) && b[..start] == old(b[..start])
            && (bid != null ==> bid.seq_num_t == if f.mp.Some? then Bumped(old(bid.seq_num_t)) else old(bid.seq_num_t))
  {
    hide L2tpHeader, PppHeader, MpHeader, Bumped, Grown;
    ghost var f := FrameOf(s, mtype, prio, bid, mp_bits);
    NoMpHeader(f);
    ghost var was := b[..];
    GrownNot(was, k);
    var multi := bid;
    var proto := mtype;
    var q := k;
    if multi != null {
      if multi.num_of_links > 1 {
        proto := PPPMP;
      } else {
        multi := null;
      }
    }
    if multi != null { q := PrependMp(b, q, s, multi, mtype, mp_bits, f, was); }
    q := PrependPpp(b, q, s, proto, f, was, k, MpHeader(f));
    q := PrependL2tp(b, q, s, prio, f, was, k, PppHeader(f) + MpHeader(f));
    assert L2tpHeader(f) + (PppHeader(f) + MpHeader(f)) == Header(f);
    GrownIs(was, b[..], k, q, Header(f));
    return q;
  }

  lemma GrownIs(was: seq<Byte>, now: seq<Byte>, k: nat, q: nat, z: seq<Byte>)
    requires Grown(was, now, k, q, z)
    ensures |now| == |was| && q + |z| == k <= |was| && now[q..] == z + was[k..] && now[..q] == was[..q]
  {
  }

  // ---- the receiving side ----

  /** What processudp makes of a data message: ids, the protocol, and everything behind it. */
  datatype Taken = Taken(tunnel: U16, session: U16, proto: U16, rest: seq<Byte>)

  /** The data path of processudp, for messages without length, sequence numbers or offset. */
  function Dismantle(z: seq<Byte>): Option<Taken> {
    if |z| < 6 || z[1] % 0x10 != 2 || z[0] / 2 != 0 then None
    else
      var p := z[6..];
      var q := if |p| > 2 && p[0] == 0xFF && p[1] == 0x03 then p[2..] else p;
      if |q| < 2 then None
      else if q[0] % 2 == 1 then Some(Taken(Val16(z, 2), Val16(z, 4), q[0], q[1..]))
      else Some(Taken(Val16(z, 2), Val16(z, 4), Val16(q, 0), q[2..]))
  }

  /** A PPP protocol number: the low byte is odd and the high byte even, so that the field can be compressed. */
  predicate Protocol(x: U16) { x % 2 == 1 && x / 0x100 % 2 == 0 && x != 0xFF }

  lemma L2tpHeaderRead(f: Frame, y: seq<Byte>)
    ensures var z := L2tpHeader(f) + y;
            && |z| >= 6 && z[6..] == y && z[1] % 0x10 == 2 && z[0] / 2 == 0
            && Val16(z, 2) == f.tunnel && Val16(z, 4) == f.session
  {
  }

  lemma PppHeaderRead(f: Frame, y: seq<Byte>)
    requires Protocol(Type(f)) && y != []
    ensures var p := PppHeader(f) + y;
            var q := if |p| > 2 && p[0] == 0xFF && p[1] == 0x03 then p[2..] else p;
            |q| >= 2 && if q[0] % 2 == 1 then q[0] == Type(f) && q[1..] == y else Val16(q, 0) == Type(f) && q[2..] == y
  {
    var t := if Type(f) < 0x100 && f.pfc then [Type(f)] else Be16(Type(f));
    var p := PppHeader(f) + y;
    if Type(f) == PPPLCP || !f.acfc {
      assert p == Be16(0xFF03) + (t + y) && p[2..] == t + y;
    } else {
      assert p == t + y;
    }
    assert (t + y)[|t|..] == y;
  }

  /** Either side of the wire: a message with something in it is read back as it was meant, whatever the
      compression the session has agreed on. */
  lemma DismantleHeader(f: Frame, y: seq<Byte>)
    requires Protocol(Type(f)) && MpHeader(f) + y != []
    ensures Dismantle(Header(f) + y) == Some(Taken(f.tunnel, f.session, Type(f), MpHeader(f) + y))
  {
    hide MpHeader, PppHeader, Type, L2tpHeader, Val16;
    var z := Header(f) + y;
    var rest := MpHeader(f) + y;
    assert z == L2tpHeader(f) + (PppHeader(f) + rest);
    L2tpHeaderRead(f, PppHeader(f) + rest);
    PppHeaderRead(f, rest);
  }

  /** How processmpin reads a long multilink header: flags, number, data. */
  function LongRead(z: seq<Byte>): (Byte, nat, seq<Byte>)
    requires |z| >= 4
  {
    (z[0], z[1] as int * 0x1_0000 + z[2] as int * 0x100 + z[3] as int, z[4..])
  }

  /** A long multilink header carries the bits and the low 24 bits of the number, and the fragment that
      begins a packet carries its protocol. */
  lemma LongHeader(f: Frame, y: seq<Byte>)
    requires f.mp.Some? && !f.mssf
    ensures var m := f.mp.value;
            LongRead(MpHeader(f) + y) ==
              (m.bits, m.num % 0x100_0000, (if BeginBit(m.bits) then Be16(f.mtype) else []) + y)
  {
    hide BeginBit, Be16, Short;
    var m := f.mp.value;
    var rest := if BeginBit(m.bits) then Be16(f.mtype) else [];
    var head := [m.bits, m.num / 0x1_0000 % 0x100, m.num / 0x100 % 0x100, m.num % 0x100];
    assert MpHeader(f) + y == head + (rest + y);
    LowBytes(m.num);
  }

  lemma LowBytes(x: U32)
    ensures x % 0x100_0000 == x / 0x1_0000 % 0x100 * 0x1_0000 + x / 0x100 % 0x100 * 0x100 + x % 0x100
  {
    var a, b := x / 0x100, x / 0x1_0000;
    assert b == a / 0x100;
    assert x == 0x100 * a + x % 0x100 && a == 0x100 * b + a % 0x100 && b == 0x100 * (b / 0x100) + b % 0x100;
  }

  /** The short header as section 3 of RFC 1990 defines it: begin and end bit first, the number in 12 bits. */
  function ShortRead(z: seq<Byte>): (Byte, nat)
    requires |z| >= 2
  {
    (z[0] / 0x40 * 0x40, z[0] as int % 0x10 * 0x100 + z[1] as int)
  }

  /** The bits of the short header are or-ed into the wrong byte: the number and the bits are read back
      right exactly for fragments that neither begin nor end a packet. */
  lemma ShortHeaderIff(f: Frame, y: seq<Byte>)
    requires f.mp.Some? && f.mssf && f.mp.value.bits in [0, 0x40, 0x80, 0xC0]
    ensures var m := f.mp.value;
            ShortRead(MpHeader(f) + y) == (m.bits, m.num % 0x1000) <==> m.bits == 0
  {
    hide Short, BeginBit;
    var m := f.mp.value;
    ShortIs(m.num, m.bits);
    var z := MpHeader(f) + y;
    assert z[0] == Short(m.num, m.bits) / 0x100 && z[1] == Short(m.num, m.bits) % 0x100;
  }

  lemma ShortIs(num: U32, bits: Byte)
    ensures Short(num, bits) < 0x1100 && (bits == 0 ==> Short(num, bits) == num % 0x1000)
  {
    OrNothing(num % 0x1000);
  }

  lemma {:induction false} OrNothing(x: nat)
    ensures Or(x, 0) == x
    decreases x
  {
    if x > 0 { OrNothing(x / 2); }
  }

  // ---- a peer that takes no liberties ----

  /** How RFC 1661 lets a peer read a frame: address, control and the protocol in full, unless it has agreed to have
      the first two left out (section 6.6) or the third shortened (section 6.5). */
  function StrictRead(acfc: bool, pfc: bool, p: seq<Byte>): Option<(U16, seq<Byte>)> {
    var full := |p| > 2 && p[0] == 0xFF && p[1] == 0x03;
    if !full && !acfc then None
    else
      var q := if full then p[2..] else p;
      if |q| >= 1 && q[0] % 2 == 1 then (if pfc then Some((q[0], q[1..])) else None)
      else if |q| >= 2 then Some((Val16(q, 0), q[2..]))
      else None
  }

  /** Such a peer reads every frame, for nothing is left out that it has not agreed to. */
  lemma StrictPeerReads(f: Frame, y: seq<Byte>)
    requires Protocol(Type(f)) && y != []
    ensures StrictRead(f.acfc, f.pfc, PppHeader(f) + y) == Some((Type(f), y))
  {
    var t := if Type(f) < 0x100 && f.pfc then [Type(f)] else Be16(Type(f));
    var p := PppHeader(f) + y;
    if Type(f) == PPPLCP || !f.acfc {
      assert p == Be16(0xFF03) + (t + y) && p[2..] == t + y;
    } else {
      assert p == t + y;
    }
    assert (t + y)[|t|..] == y;
  }

  /** Link control packets go out in full whatever was agreed: the peer may not know of it any more. */
  lemma LinkControlInFull(f: Frame)
    requires f.mp.None? && f.mtype == 0xC021
    ensures PppHeader(f) == [0xFF, 0x03, 0xC0, 0x21]
  {
  }

  /** A packet that has been agreed on goes out as short as it may. */
  lemma ShortestHeader(f: Frame)
    requires Type(f) != 0xC021
    ensures |PppHeader(f)| == (if f.acfc then 0 else 2) + if f.pfc && Type(f) < 0x100 then 1 else 2
  {
  }

  /** The first byte tells that the message is to be preferred. */
  lemma PriorityBit(f: Frame)
    ensures Header(f)[0] == (if f.prio then 1 else 0) && Header(f)[1] == 2
  {
  }

  lemma BumpedIs(num: U32)
    ensures Bumped(num) == if num == 0xffff_ffff then 0 else num + 1
  {
  }

  /** What the far end makes of a message sent over a session: its own tunnel and session, and the packet as it is, or
      on a bundle of several links a fragment with the bundle's number. */
  lemma FarEndReads(s: Session, mtype: U16, prio: bool, bid: Bundle?, mp_bits: Byte, y: seq<Byte>)
    requires Protocol(mtype) && y != []
    ensures var multi := bid != null && bid.num_of_links > 1;
            var r := Dismantle(Header(FrameOf(s, mtype, prio, bid, mp_bits)) + y);
            && r.Some? && r.value.tunnel == s.tunnel && r.value.session == s.far
            && (!multi ==> r.value.proto == mtype && r.value.rest == y)
            && (multi && !s.mssf ==>
                  && r.value.proto == 0x3D && |r.value.rest| >= 4
                  && LongRead(r.value.rest) ==
                     (mp_bits, bid.seq_num_t % 0x100_0000, (if BeginBit(mp_bits) then Be16(mtype) else []) + y))
  {
    hide PppHeader, L2tpHeader, BeginBit, Be16;
    var f := FrameOf(s, mtype, prio, bid, mp_bits);
    DismantleHeader(f, y);
    NoMpHeader(f);
    if f.mp.Some? && !f.mssf { LongHeader(f, y); }
  }
}
