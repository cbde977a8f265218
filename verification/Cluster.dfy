/** The clustering code: packets are built in a fixed buffer and parsed in place, changes are moved
    about in an array, and a ring of past heartbeats is overwritten. */
module Cluster {
  import opened Common
  import opened Heartbeat
  import opened ClusterTables
  import opened ClusterPacket
  import opened ClusterHistory
  import opened ClusterNode
  import opened Election
  import Rle

  // ---- building packets ----

  method Put32(buff: array<Byte>, p: nat, x: U32) returns (p': nat)
    requires p + 4 <= buff.Length
    modifies buff
    ensures p' == p + 4 && buff[..p'] == old(buff[..p]) + Le32(x)
  {
    buff[p] := x % 0x100;
    buff[p + 1] := x / 0x100 % 0x100;
    buff[p + 2] := x / 0x1_0000 % 0x100;
    buff[p + 3] := x / 0x100_0000;
    p' := p + 4;
    assert buff[..p'] == buff[..p] + buff[p..p'];
  }

  /** add_type. */
  method AddType(buff: array<Byte>, p: nat, code: U32, more: U32, body: seq<Byte>) returns (p': nat)
    requires p + 8 + |body| <= buff.Length
    modifies buff
    ensures p' == p + 8 + |body| && buff[..p'] == old(buff[..p]) + Typed(code, more, body)
  {
    hide Le32;
    p' := Put32(buff, p, code);
    p' := Put32(buff, p', more);
    p' := Append(buff, p', body);
  }

  lemma ReceivedMore(t: Tables, e: Element, p: Parsed)
    ensures ReceivedAll(t, Prepend(e, p).elements) == ReceivedAll(Received(t, e), p.elements)
  {
    assert ([e] + p.elements)[1..] == p.elements;
  }

  /** hb_add_type: one table entry, compressed if that covers it all and shortens it. */
  method AddEntry(buff: array<Byte>, p: nat, kind: Kind, id: U32, block: Block) returns (p': nat)
    requires |block| > 0 && p + 8 + |block| <= buff.Length
    modifies buff
    ensures p' == p + |Encode(Element(kind, id, block))|
    ensures buff[..p'] == old(buff[..p]) + Encode(Element(kind, id, block))
  {
    hide Rle.Pack, Typed;
    var src := new Byte[|block|](i requires 0 <= i < |block| => block[i]);
    var c := new Byte[2 * |block|];
    assert src[..] == block;
    var taken, used := Rle.Compress(src, c);
    if taken == |block| && used < |block| {
      p' := AddType(buff, p, TypeCode(kind, true), id, c[..used]);
    } else {
      p' := AddType(buff, p, TypeCode(kind, false), id, block);
    }
  }

  class Node {
    const c: Config
    var slots: Trio<seq<Slot>>
    var undefined: Trio<int>
    var uptodate: bool
    var highest: Trio<U32>
    var walk: Trio<U32>
    const changes: array<Key>
    var numChanges: nat
    var seqNumber: int
    const ring: array<Heart>
    var version: nat
    var free: U32
    var interval: U32
    var timeout: U32
    var master: bool
    var masterAddr: U32
    var lastHb: int
    var askedSeq: int
    var askedTime: int

    ghost predicate Framed()
      reads this, changes, ring
    {
      && ring.Length == HB_HISTORY_SIZE && c.L.Sound() && changes.Length == c.L.MaxChanges() + 1
      && numChanges <= changes.Length
    }

    ghost predicate Shaped()
      reads this, changes, ring
    {
      Framed() && -1 <= seqNumber < HB_MAX_SEQ
    }

    /** The tables are there, their entries have the size of their kind, and entry 0, which stands
        for nothing, is never undefined. */
    ghost predicate Tabled()
      reads this`slots
    {
      forall kind :: var t := slots.Get(kind);
        1 < |t| <= WORD && t[0].Defined? && forall i :: 0 <= i < |t| && t[i].Defined? ==> |t[i].block| == c.L.Size(kind)
    }

    /** The walks and the queued ids stay inside the tables. */
    ghost predicate Pointed()
      reads this`slots, this`walk, this`numChanges, changes
      requires numChanges <= changes.Length
    {
      PointedInto(slots)
    }

    ghost predicate PointedInto(t: Trio<seq<Slot>>)
      reads this`walk, this`numChanges, changes
      requires numChanges <= changes.Length
    {
      && (forall kind :: walk.Get(kind) < |t.Get(kind)|)
      && (forall k :: k in changes[..numChanges] ==> k.id < |t.Get(k.kind)|)
    }

    /** What sending a heartbeat needs: complete tables. */
    ghost predicate Ready()
      reads this, changes, ring
      requires Shaped()
    {
      && seqNumber >= 0 && Full(c.L, slots) && Pointed()
      && (forall kind :: highest.Get(kind) < |slots.Get(kind)| && 1 < |slots.Get(kind)|)
    }

    /** What holds of a node between operations. */
    ghost predicate Valid()
      reads this, changes, ring
    {
      Shaped() && Pointed() && Tabled() && numChanges <= c.L.MaxChanges() && (master ==> Ready())
    }

    ghost function State(): NodeState
      reads this, changes, ring
      requires Framed()
    {
      NodeState(Tables(slots, undefined, uptodate), highest, walk, changes[..numChanges], seqNumber, ring[..],
                version, free, interval, timeout, master, masterAddr, lastHb, askedSeq, askedTime)
    }

    /** One of the three loops of cluster_heartbeat that fill the packet from a table. */
    method WalkTable(buff: array<Byte>, p: nat, kind: Kind, ghost head: seq<Byte>, ghost before: seq<Key>)
      returns (p': nat, ghost ks: seq<Key>)
      requires Shaped() && Ready()
      requires |head| == 8 + HEADER_SIZE && buff.Length >= MAX_HEART_SIZE && p <= buff.Length
      requires buff[..p] == head + EncodeAll(ElementsOf(c.L, slots, before))
      modifies buff, this`walk
      ensures Shaped() && Ready()
      ensures ks == WalkOf(c.L, slots, highest, old(walk), before, kind)
      ensures walk == old(walk).Set(kind, NextWalk(c.L, slots, highest, old(walk), before, kind))
      ensures p' <= buff.Length && buff[..p'] == head + EncodeAll(ElementsOf(c.L, slots, before + ks))
    {
      hide Encode, EncodeAll, ElementOf, Walked, WalkEnd, SizeOf, Advance, Full, Reserve, Layout.Sound,
           Layout.MaxChanges, Layout.Size;
      p', ks := p, [];
      var count := 0;
      ghost var high, w := highest.Get(kind), walk.Get(kind);
      ghost var goal := Walked(c.L, slots, kind, high, w, p, high);
      ghost var end := WalkEnd(c.L, slots, kind, high, w, p, high);
      assert before + ks == before;
      SizeIs(head, before);
      while p' + 8 + Reserve(c.L, kind) < MAX_HEART_SIZE
        invariant Shaped() && Ready() && count <= high && p' <= buff.Length
        invariant goal == ks + Walked(c.L, slots, kind, high, walk.Get(kind), p', high - count)
        invariant end == WalkEnd(c.L, slots, kind, high, walk.Get(kind), p', high - count)
        invariant walk == old(walk).Set(kind, walk.Get(kind))
        invariant buff[..p'] == head + EncodeAll(ElementsOf(c.L, slots, before + ks))
        decreases high - count
      {
        if count >= highest.Get(kind) {
          WalkStops(c.L, slots, kind, high, walk.Get(kind), p', high - count);
          if walk.Get(kind) == 0 { walk := walk.Set(kind, 1); }
          return;
        }
        WalkGoesOn(c.L, slots, kind, high, walk.Get(kind), p', high - count);
        ghost var k;
        p', k := WalkOne(buff, p', kind);
        SizeOfAppend(c.L, slots, before + ks, k);
        Onward(before, ks, k);
        count := count + 1;
        ks := ks + [k];
      }
      WalkStops(c.L, slots, kind, high, walk.Get(kind), p', high - count);
    }

    lemma Onward(before: seq<Key>, ks: seq<Key>, k: Key)
      ensures before + (ks + [k]) == before + ks + [k]
    {
    }

    lemma SizeIs(head: seq<Byte>, ks: seq<Key>)
      requires |head| == 8 + HEADER_SIZE
      ensures |head + EncodeAll(ElementsOf(c.L, slots, ks))| == SizeOf(c.L, slots, ks)
    {
    }

    /** One round: the next id of the walk, 0 being skipped. */
    method WalkOne(buff: array<Byte>, p: nat, kind: Kind) returns (p': nat, ghost k: Key)
      requires Shaped() && Ready()
      requires p + 8 + Reserve(c.L, kind) < MAX_HEART_SIZE <= buff.Length
      modifies buff, this`walk
      ensures Shaped() && Ready() && k == Key(kind, Start(old(walk).Get(kind)))
      ensures walk == old(walk).Set(kind, Advance(Start(old(walk).Get(kind)), highest.Get(kind)))
      ensures p' == p + |Encode(ElementOf(c.L, slots, k))| && p' <= buff.Length
      ensures buff[..p'] == old(buff[..p]) + Encode(ElementOf(c.L, slots, k))
    {
      hide Encode, Advance;
      var id := walk.Get(kind);
      if id == 0 { id := 1; }
      k := Key(kind, id);
      var block := slots.Get(kind)[id].block;
      EntrySize(c.L, slots, k);
      p' := AddEntry(buff, p, kind, id, block);
      walk := walk.Set(kind, Advance(id, highest.Get(kind)));
    }
  
    /** The part of cluster_heartbeat that fills the buffer. */
    method BuildPacket(h: Header) returns (packet: seq<Byte>)
      requires Shaped() && Ready()
      modifies this`walk
      ensures Shaped() && Ready() && |packet| <= MAX_HEART_SIZE
      ensures packet == Packet(c.L, h, slots, Carried(c.L, slots, highest, old(walk), changes[..numChanges]))
      ensures walk == NextWalks(c.L, slots, highest, old(walk), changes[..numChanges])
    {
      hide Encode, EncodeAll, ElementOf, Full, WalkOf, NextWalk, HeaderWords, Typed;
      var buff := new Byte[MAX_HEART_SIZE + HEADER_SIZE + 4](_ => 0);
      ghost var head, w := EncodeHeader(h), walk;
      var p := AddType(buff, 0, C_HEARTBEAT, HB_VERSION, Words(HeaderWords(h)));
      assert buff[..p] == head;
      p := AddChanges(buff, p, head);
      ghost var ks, ks1, ks2, ks3 := changes[..numChanges], [], [], [];
      p, ks1 := WalkTable(buff, p, Session, head, ks);
      WalkIgnores(ks + ks1, Tunnel, w, walk);
      p, ks2 := WalkTable(buff, p, Tunnel, head, ks + ks1);
      WalkIgnores(ks + ks1 + ks2, Bundle, w, walk);
      p, ks3 := WalkTable(buff, p, Bundle, head, ks + ks1 + ks2);
      packet := buff[..p];
      HeartbeatFits(c.L, h, slots, highest, w, ks);
    }

    /** The walk of one table does not depend on where the others stand. */
    lemma WalkIgnores(before: seq<Key>, kind: Kind, w: Trio<U32>, w': Trio<U32>)
      requires w.Get(kind) == w'.Get(kind)
      ensures WalkOf(c.L, slots, highest, w, before, kind) == WalkOf(c.L, slots, highest, w', before, kind)
      ensures NextWalk(c.L, slots, highest, w, before, kind) == NextWalk(c.L, slots, highest, w', before, kind)
    {
    }

    /** The header, with the table version counted up by the changes it announces. */
    method FillHeader() returns (h: Header)
      requires Shaped() && seqNumber >= 0
      modifies this`version
      ensures Shaped() && h == HeaderOf(c, old(State())) && version == Bump(old(version), numChanges)
    {
      hide Bump;
      version := Bump(version, numChanges);
      h := Header(seqNumber, c.me.basetime, c.cluster, highest, free,
                  Trio(c.L.session % WORD, c.L.bundle % WORD, c.L.tunnel % WORD), interval, timeout,
                  version % WORD, version / WORD);
    }

    /** cluster_heartbeat: builds the packet, keeps it in the ring and hands it to the network. */
    method Heartbeat() returns (packet: seq<Byte>)
      requires Shaped() && Ready()
      modifies this`version, this`walk, this`numChanges, this`seqNumber, ring
      ensures Shaped() && Ready() && numChanges == 0
      ensures State() == Beat(c, old(State())) && packet == NextPacket(c, old(State()))
    {
      hide Full, Stored, Bump, Packet, Carried, NextWalks, HeaderOf;
      var h := FillHeader();
      packet := BuildPacket(h);
      Launch(packet);
    }

    /** The queue has gone out, the packet is kept, and the next number is due. */
    method Launch(packet: seq<Byte>)
      requires Shaped() && Ready() && |packet| <= MAX_HEART_SIZE
      modifies this`numChanges, this`seqNumber, ring
      ensures Shaped() && Ready() && numChanges == 0
      ensures State() == old(State()).(changes := [], ring := Stored(old(ring[..]), old(seqNumber), packet),
                                       seqno := (old(seqNumber) + 1) % HB_MAX_SEQ)
    {
      hide Full, Stored;
      numChanges := 0;
      SendHeartbeat(seqNumber, packet);
      seqNumber := (seqNumber + 1) % HB_MAX_SEQ;
    }

    /** The loop of cluster_heartbeat over the change queue. */
    method AddChanges(buff: array<Byte>, p: nat, ghost head: seq<Byte>) returns (p': nat)
      requires Shaped() && Ready()
      requires |head| == 8 + HEADER_SIZE && buff.Length >= MAX_HEART_SIZE && p <= buff.Length && buff[..p] == head
      modifies buff
      ensures p' <= buff.Length && buff[..p'] == head + EncodeAll(ElementsOf(c.L, slots, changes[..numChanges]))
    {
      hide Encode, EncodeAll, ElementOf, Full, SizeOf;
      p' := p;
      ghost var q := changes[..numChanges];
      EncodeNothing(ElementsOf(c.L, slots, q[..0]));
      var i := 0;
      while i < numChanges
        invariant 0 <= i <= numChanges && p' <= buff.Length
        invariant buff[..p'] == head + EncodeAll(ElementsOf(c.L, slots, q[..i]))
      {
        ChangeFits(q, i, head);
        var k := changes[i];
        assert k in q;
        assert q[..i + 1] == q[..i] + [k];
        SizeOfAppend(c.L, slots, q[..i], k);
        SlotIs(k);
        p' := AddEntry(buff, p', k.kind, k.id, slots.Get(k.kind)[k.id].block);
        i := i + 1;
      }
      assert q[..i] == q;
    }

    lemma SlotIs(k: Key)
      requires Full(c.L, slots) && c.L.Sound() && k.id < |slots.Get(k.kind)|
      ensures slots.Get(k.kind)[k.id].Defined?
      ensures ElementOf(c.L, slots, k) == Element(k.kind, k.id, slots.Get(k.kind)[k.id].block)
      ensures 0 < |slots.Get(k.kind)[k.id].block|
    {
    }

    lemma ChangeFits(q: seq<Key>, i: nat, head: seq<Byte>)
      requires Shaped() && Full(c.L, slots) && i < |q| <= c.L.MaxChanges() + 1 && |head| == 8 + HEADER_SIZE
      requires q[i].id < |slots.Get(q[i].kind)|
      ensures |head + EncodeAll(ElementsOf(c.L, slots, q[..i]))| + 8 +
              |slots.Get(q[i].kind)[q[i].id].block| <= MAX_HEART_SIZE
    {
      hide EncodeAll, Encode;
      ElementsFit(c.L, slots, q[..i]);
      EncodedSize(ElementsOf(c.L, slots, q[..i]), c.L.session);
      Quotient(c.L.session, i + 1);
      assert (i + 1) * (8 + c.L.session) == i * (8 + c.L.session) + (8 + c.L.session);
    }

    /** send_heartbeat: the packet overwrites the oldest one in the ring. */
    method SendHeartbeat(seqno: nat, data: seq<Byte>)
      requires ring.Length == HB_HISTORY_SIZE && |data| <= MAX_HEART_SIZE
      modifies ring
      ensures ring[..] == Stored(old(ring[..]), seqno, data)
    {
      ring[Place(seqno)] := Heart(seqno, data);
    }
  
    /** The memmove of type_changed: entry `i` is dropped and those after it move up. */
    method MoveUp(i: nat)
      requires i < numChanges <= changes.Length
      modifies this`numChanges, changes
      ensures numChanges == old(numChanges) - 1
      ensures changes[..numChanges] == Remove(old(changes[..numChanges]), i)
    {
      ghost var q := changes[..numChanges];
      numChanges := numChanges - 1;
      var j := i;
      while j < numChanges
        invariant i <= j <= numChanges == |q| - 1
        invariant forall x :: 0 <= x < j ==> changes[x] == Remove(q, i)[x]
        invariant forall x :: j < x <= numChanges ==> changes[x] == q[x]
      {
        assert changes[j + 1] == q[j + 1] == Remove(q, i)[j];
        changes[j] := changes[j + 1];
        j := j + 1;
      }
    }

    /** The queue half of type_changed. */
    method Enqueue(k: Key)
      requires numChanges < changes.Length
      modifies this`numChanges, changes
      ensures numChanges <= changes.Length && changes[..numChanges] == Requeued(old(changes[..numChanges]), k)
    {
      hide Remove, Find;
      ghost var q := changes[..numChanges];
      var i := 0;
      while i < numChanges && changes[i] != k
        invariant 0 <= i <= numChanges && forall j :: 0 <= j < i ==> q[j] != k
      {
        i := i + 1;
      }
      FindIs(q, k, i);
      if i < numChanges {
        MoveUp(i);
      }
      changes[numChanges] := k;
      numChanges := numChanges + 1;
    }

    /** type_changed, as cluster_send_session, cluster_send_bundle and cluster_send_tunnel call it. */
    method TypeChanged(k: Key) returns (flushed: Option<seq<Byte>>)
      requires Valid() && master && k.id < |slots.Get(k.kind)|
      modifies this`version, this`walk, this`numChanges, this`seqNumber, changes, ring
      ensures Valid()
      ensures State() == Changed(c, old(State()), k) && flushed == Flushed(c, old(State()), k)
    {
      hide Full, Beat, NextPacket, Find, Remove, Requeued, Layout.Sound, Layout.MaxChanges;
      Enqueue(k);
      flushed := None;
      if numChanges > c.L.MaxChanges() {
        var packet := Heartbeat();
        flushed := Some(packet);
      }
    }

    /** cluster_catchup_slave on a master: the missed packets in order, or the order to die. */
    method CatchupSlave(seqno: int) returns (result: CatchUp)
      requires Valid() && seqNumber >= 0
      ensures result == CaughtUp(ring[..], seqno, seqNumber)
    {
      var diff := seqNumber - seqno;
      if diff < 0 { diff := diff + HB_MAX_SEQ; }
      if diff >= HB_HISTORY_SIZE { return Killed; }
      hide Resend, Lag, Place, Preceded;
      var sent, x := [], seqno;
      NothingPrecedes(Resend(ring[..], seqno, seqNumber));
      ghost var r, goal := ring[..], Resend(ring[..], seqno, seqNumber);
      while x != seqNumber
        invariant -HB_HISTORY_SIZE < x && ring[..] == r
        invariant goal == Preceded(sent, Resend(r, x, seqNumber))
        decreases if x < HB_MAX_SEQ then Lag(x, seqNumber) else HB_MAX_SEQ
      {
        ResendUnfold(r, x, seqNumber);
        PrecededBy(sent);
        if x < 0 { return OutOfRing(x); }
        LagShrinks(x, seqNumber);
        var heart := ring[Place(x)];
        if x != heart.seqno { return Mismatch(sent); }
        MorePrecedes(sent, [heart.data], Resend(r, (x + 1) % HB_MAX_SEQ, seqNumber));
        sent := sent + [heart.data];
        x := (x + 1) % HB_MAX_SEQ;
      }
      ResendUnfold(r, x, seqNumber);
      PrecededBy(sent);
      result := Resent(sent);
    }

    ghost function Copy(): Tables
      reads this`slots, this`undefined, this`uptodate
    {
      Tables(slots, undefined, uptodate)
    }

    ghost predicate SameShape(before: Trio<seq<Slot>>)
      reads this`slots
    {
      forall kind :: |slots.Get(kind)| == |before.Get(kind)|
    }

    /** cluster_uptodate. */
    method CheckUptodate()
      modifies this`uptodate
      ensures Copy() == Raise(old(Copy()))
    {
      if uptodate { return; }
      if undefined.session != 0 || undefined.tunnel != 0 || undefined.bundle != 0 { return; }
      uptodate := true;
    }

    /** cluster_recv_session, cluster_recv_bundle or cluster_recv_tunnel. */
    method ReceiveEntry(kind: Kind, id: U32, block: Block)
      requires Tabled() && |block| == c.L.Size(kind)
      modifies this`slots, this`undefined, this`uptodate
      ensures SameShape(old(slots))
      ensures Copy() == Received(old(Copy()), Element(kind, id, block)) && Tabled()
    {
      var t := slots.Get(kind);
      if id >= |t| { return; }
      if t[id].Undefined? && !uptodate {
        undefined := undefined.Set(kind, undefined.Get(kind) - 1);
      }
      slots := slots.Set(kind, t[id := Defined(block)]);
      if !uptodate { CheckUptodate(); }
      assert forall k :: k != kind ==> slots.Get(k) == old(slots.Get(k));
    }

    /** One of the three loops of cluster_check_sessions. */
    method CheckTable(kind: Kind, high: int)
      requires Tabled()
      modifies this`slots, this`undefined
      ensures var t := Cleared(old(slots).Get(kind), high, Free(c.L, kind));
              slots == old(slots).Set(kind, t) && undefined == old(undefined).Set(kind, Undefs(t, |t|))
      ensures Tabled()
    {
      ghost var goal := Cleared(slots.Get(kind), high, Free(c.L, kind));
      var t, count, i := slots.Get(kind), 0, 1;
      assert Undefs(goal, 1) == Undefs(goal, 0) + 0;
      while i < |t|
        invariant 1 <= i <= |t| == |goal|
        invariant count == Undefs(goal, i)
        invariant forall j :: 0 <= j < i ==> t[j] == goal[j]
        invariant forall j :: i <= j < |t| ==> t[j] == slots.Get(kind)[j]
      {
        if i > high {
          if t[i].Undefined? { t := t[i := Defined(Free(c.L, kind))]; }
        } else if t[i].Undefined? {
          count := count + 1;
        }
        i := i + 1;
      }
      assert t == goal;
      slots := slots.Set(kind, t);
      undefined := undefined.Set(kind, count);
    }

    /** cluster_check_sessions. */
    method CheckSessions(high: Trio<U32>)
      requires Tabled()
      modifies this`slots, this`undefined, this`uptodate
      ensures SameShape(old(slots))
      ensures Copy() == Checked(c.L, old(Copy()), high) && Tabled()
    {
      hide Cleared, Undefs;
      if uptodate { return; }
      if high.session > undefined.session && high.bundle > undefined.bundle && high.tunnel > undefined.tunnel {
        return;
      }
      CheckTable(Session, high.session);
      CheckTable(Bundle, high.bundle);
      CheckTable(Tunnel, high.tunnel);
      CheckUptodate();
    }

    /** The element loop of cluster_process_heartbeat. */
    method ApplyEntries(data: array<Byte>, start: nat) returns (status: Status)
      requires Tabled() && start <= data.Length
      modifies this`slots, this`undefined, this`uptodate
      ensures SameShape(old(slots))
      ensures var p := Parse(c.L, data[..], start);
              Copy() == ReceivedAll(old(Copy()), p.elements) && status == p.status
      ensures Tabled()
    {
      hide Parse, Word, Received;
      var q := start;
      ghost var z, t0 := data[..], Copy();
      while q < data.Length
        invariant start <= q <= data.Length && Tabled() && data[..] == z && SameShape(old(slots))
        invariant var p, rest := Parse(c.L, z, start), Parse(c.L, z, q);
                  ReceivedAll(t0, p.elements) == ReceivedAll(Copy(), rest.elements) && p.status == rest.status
        decreases data.Length - q
      {
        var done: Option<Status>;
        q, done := ApplyOne(data, q);
        if done.Some? { return done.value; }
      }
      ParseEnd(c.L, z, q);
      status := Complete;
    }

    /** A compressed structure is unpacked, and applied unless it has the wrong size. */
    method ApplyPacked(data: array<Byte>, q: nat, kind: Kind, id: U32) returns (q': nat)
      requires Tabled() && q + 8 <= data.Length
      modifies this`slots, this`undefined, this`uptodate
      ensures SameShape(old(slots)) && Tabled()
      ensures q + 8 <= q' == UnpackEnd(c.L, kind, data[..], q + 8) <= data.Length
      ensures var block := Unpack(c.L, kind, data[..], q + 8);
              Copy() ==
              if |block| == c.L.Size(kind) then Received(old(Copy()), Element(kind, id, block)) else old(Copy())
    {
      hide Received, Rle.Unpacked, Rle.Stop, Tabled;
      ghost var z := data[..];
      var buf := new Byte[c.L.Size(kind) + 2](_ => 0);
      var n;
      q', n := Rle.Decompress(data, q + 8, data.Length, buf);
      assert data[..data.Length] == z;
      if n == c.L.Size(kind) { ReceiveEntry(kind, id, buf[..n]); }
    }

    /** One round of that loop; `done` says why it stops. */
    method ApplyOne(data: array<Byte>, q: nat) returns (q': nat, done: Option<Status>)
      requires Tabled() && q < data.Length
      modifies this`slots, this`undefined, this`uptodate
      ensures SameShape(old(slots))
      ensures Tabled() && q <= q' <= data.Length && (done.None? ==> q < q')
      ensures var p := Parse(c.L, data[..], q);
              if done.Some? then p == Parsed([], done.value) && unchanged(this)
              else
                var rest := Parse(c.L, data[..], q');
                p.status == rest.status && ReceivedAll(old(Copy()), p.elements) == ReceivedAll(Copy(), rest.elements)
    {
      hide Word, Received, ReceivedAll, Unpack, UnpackEnd, Tabled, Parse, SameShape;
      q', done := q, None;
      assert SameShape(old(slots)) by { KeepsShape(); }
      ParseUnfold(c.L, data[..], q);
      if q + 8 > data.Length { return q, Some(Short); }
      var code, id := Get32(data, q), Get32(data, q + 4);
      match KindOf(code) {
        case None => done := Some(Strange);
        case Some((kind, true)) =>
          ghost var block, t := Unpack(c.L, kind, data[..], q + 8), Copy();
          q' := ApplyPacked(data, q, kind, id);
          ReceivedMore(t, Element(kind, id, block), Parse(c.L, data[..], q'));
        case Some((kind, false)) =>
          var end := q + 8 + c.L.Size(kind);
          if end > data.Length { return q, Some(Short); }
          ghost var t := Copy();
          ReceiveEntry(kind, id, data[q + 8..end]);
          q' := end;
          assert data[q + 8..end] == data[..][q + 8..end];
          ReceivedMore(t, Element(kind, id, data[q + 8..end]), Parse(c.L, data[..], q'));
      }
    }

    lemma KeepsShape()
      ensures SameShape(slots)
    {
    }

    /** Loads what an expected heartbeat says into the tables. */
    method Load(high: Trio<U32>, data: array<Byte>) returns (status: Status)
      requires Tabled() && 8 + HEADER_SIZE <= data.Length
      modifies this`slots, this`undefined, this`uptodate
      ensures Tabled() && SameShape(old(slots))
      ensures var p := Parse(c.L, data[..], 8 + HEADER_SIZE);
              Copy() == ReceivedAll(Checked(c.L, old(Copy()), high), p.elements) && status == p.status
    {
      hide Parse, ReceivedAll, Checked, Tabled;
      CheckSessions(high);
      status := ApplyEntries(data, 8 + HEADER_SIZE);
    }

    /** Keeps an expected heartbeat and takes over what its header sets. */
    method Adopt(h: Header, data: array<Byte>)
      requires Framed() && data.Length <= MAX_HEART_SIZE
      modifies this`seqNumber, this`free, this`interval, this`timeout, ring
      ensures Shaped() && State() == Adopted(old(State()), h, data[..])
    {
      hide Layout.Sound, Layout.MaxChanges, Stored;
      seqNumber := (h.seqno + 1) % HB_MAX_SEQ;
      SendHeartbeat(h.seqno, data[..]);
      free, interval, timeout := h.free, h.interval, h.timeout;
    }

    /** What cluster_process_heartbeat does with the heartbeat it expects. */
    method Accept(h: Header, data: array<Byte>, from: U32) returns (reaction: Reaction)
      requires Framed() && Tabled() && 8 + HEADER_SIZE <= data.Length <= MAX_HEART_SIZE
      modifies this`seqNumber, this`slots, this`undefined, this`uptodate, this`free, this`interval, this`timeout,
               this`masterAddr, this`version, ring
      ensures Shaped() && Tabled() && SameShape(old(slots))
      ensures (State(), reaction) == InSequence(c, old(State()), h, data[..], from)
    {
      hide Tabled, SameShape, Parse, ReceivedAll, Checked, Layout.Sound, Layout.MaxChanges, Adopted;
      Adopt(h, data);
      ghost var s := State();
      var status := Load(h.highest, data);
      masterAddr := if status == Status.Complete then from else masterAddr;
      version := if status == Status.Complete then h.versionLow + WORD * h.versionHigh else version;
      reaction := Done(status);
      assert State() == s.(tables := Copy(), masterAddr := masterAddr, version := version);
    }

    method ReadHeader(data: array<Byte>) returns (h: Header)
      requires data.Length >= 8 + HEADER_SIZE
      ensures h == DecodeHeader(data[..])
    {
      hide Word;
      h := Header(Get32(data, 12), Get32(data, 16), Get32(data, 20),
                  Trio(Get32(data, 24), Get32(data, 32), Get32(data, 36)), Get32(data, 28),
                  Trio(Get32(data, 40), Get32(data, 44), Get32(data, 48)), Get32(data, 52), Get32(data, 56),
                  Get32(data, 64), Get32(data, 68));
    }

    /** The part of cluster_process_heartbeat for a slave. */
    method Follow(h: Header, data: array<Byte>, from: U32, now: int, secs: int) returns (reaction: Reaction)
      requires Valid() && !master && 8 + HEADER_SIZE <= data.Length <= MAX_HEART_SIZE
      modifies this, ring
      ensures Valid()
      ensures (State(), reaction) == Followed(c, old(State()), h, data[..], from, now, secs)
    {
      hide Parse, ReceivedAll, Checked, Full, InSequence, Tabled, Layout.Sound, Layout.MaxChanges;
      if masterAddr != 0 && from != masterAddr { return Ignored; }
      if seqNumber == -1 { seqNumber := h.seqno; }
      lastHb := now;
      if seqNumber != h.seqno {
        var ask := seqNumber != askedSeq || secs != askedTime;
        if !ask { return Waiting; }
        askedSeq, askedTime := seqNumber, secs;
        return Asking(seqNumber);
      }
      reaction := Accept(h, data, from);
    }

    /** cluster_process_heartbeat. */
    method ProcessHeartbeat(data: array<Byte>, from: U32, now: int, secs: int) returns (reaction: Reaction)
      requires Valid() && data.Length >= 8
      modifies this, ring
      ensures Valid()
      ensures (State(), reaction) == Arrived(c, old(State()), data[..], from, now, secs)
    {
      hide Parse, ReceivedAll, Checked, Full, Word, DecodeHeader, Duel, InSequence, CaughtUp, Tabled, Layout.Sound,
           Layout.MaxChanges;
      if Get32(data, 4) != HB_VERSION || data.Length > MAX_HEART_SIZE || data.Length < 8 + HEADER_SIZE {
        return Ignored;
      }
      var h := ReadHeader(data);
      if h.cluster != c.cluster { return Ignored; }
      if master {
        match Duel(Claim(version, c.me), Claim(h.versionLow + WORD * h.versionHigh, Candidate(from, h.basetime))) {
          case Die => return Dying;
          case Ignore => return Ignored;
          case Provoke =>
            var resent := CatchupSlave(seqNumber - 1);
            return Provoking(resent);
        }
      }
      reaction := Follow(h, data, from, now, secs);
    }

    /** One of the loops of cluster_check_master over the tables. */
    method FreeTable(kind: Kind)
      requires Tabled()
      modifies this`slots, this`highest
      ensures var t := Freed(old(slots).Get(kind), Free(c.L, kind));
              slots == old(slots).Set(kind, t) && highest == old(highest).Set(kind, Top(t, Free(c.L, kind)))
      ensures Tabled()
    {
      var free := Free(c.L, kind);
      ghost var goal := Freed(slots.Get(kind), free);
      var t, top, i := slots.Get(kind), 0, 0;
      while i < |t|
        invariant 0 <= i <= |t| == |goal|
        invariant top == HighestUsed(goal, free, i)
        invariant forall j :: 0 <= j < i ==> t[j] == goal[j]
        invariant forall j :: i <= j < |t| ==> t[j] == slots.Get(kind)[j]
      {
        if t[i].Undefined? { t := t[i := Defined(free)]; }
        if t[i] != Defined(free) && i > top { top := i; }
        i := i + 1;
      }
      assert t == goal;
      slots, highest := slots.Set(kind, t), highest.Set(kind, top);
    }

    lemma SizedIs()
      requires Tabled()
      ensures forall kind, i :: 0 <= i < |slots.Get(kind)| && slots.Get(kind)[i].Defined? ==>
              |slots.Get(kind)[i].block| == c.L.Size(kind)
      ensures forall kind :: 1 < |slots.Get(kind)|
    {
    }

    /** The part of cluster_check_master that completes the tables. */
    method CompleteTables()
      requires Tabled()
      modifies this`slots, this`highest
      ensures Tabled() && SameShape(old(slots)) && Full(c.L, slots)
      ensures slots == Completed(c.L, old(slots)) && highest == Tops(c.L, slots)
      ensures forall kind :: highest.Get(kind) < |slots.Get(kind)|
    {
      hide Freed, Top, HighestUsed, Free, Full, Tabled, Layout.Sound, Layout.MaxChanges, Layout.Size;
      SizedIs();
      ghost var before := slots;
      FreeTable(Tunnel);
      FreeTable(Bundle);
      FreeTable(Session);
      assert slots == Completed(c.L, before);
      CompletedIsFull(c.L, before);
    }

    /** The part of cluster_check_master that makes this slave the master. */
    method BecomeMaster()
      requires Valid() && !master
      modifies this`slots, this`undefined, this`uptodate, this`master, this`seqNumber, this`highest
      ensures Valid() && master && State() == Promoted(c, old(State()))
    {
      hide Completed, Tops, Full, Tabled, PointedInto, SameShape, Layout.Sound, Layout.MaxChanges, Layout.Size;
      ghost var before := slots;
      CompleteTables();
      SizedIs();
      SizesSame(before);
      master := true;
      if seqNumber == -1 { seqNumber := 0; }
      undefined, uptodate := Trio(0, 0, 0), true;
    }

    /** What points into the tables still does. */
    lemma SizesSame(before: Trio<seq<Slot>>)
      requires Framed() && SameShape(before)
      requires PointedInto(before)
      ensures PointedInto(slots)
    {
    }
  }

  function Get32(data: array<Byte>, q: nat): (x: U32)
    requires q + 4 <= data.Length
    reads data
    ensures x == Word(data[..], q)
  {
    (data[q] as int) + 0x100 * (data[q + 1] as int) + 0x1_0000 * (data[q + 2] as int) +
      0x100_0000 * (data[q + 3] as int)
  }

  lemma NothingPrecedes(rest: CatchUp)
    ensures Preceded([], rest) == rest
  {
  }

  lemma PrecededBy(sent: seq<seq<Byte>>)
    ensures Preceded(sent, Resent([])) == Resent(sent) && Preceded(sent, Mismatch([])) == Mismatch(sent)
    ensures forall i :: Preceded(sent, OutOfRing(i)) == OutOfRing(i)
  {
  }

  lemma MorePrecedes(sent: seq<seq<Byte>>, more: seq<seq<Byte>>, rest: CatchUp)
    ensures Preceded(sent + more, rest) == Preceded(sent, Preceded(more, rest))
  {
  }

  lemma LagShrinks(x: nat, next: nat)
    requires next < HB_MAX_SEQ && x != next
    ensures 0 <= Lag((x + 1) % HB_MAX_SEQ, next) < if x < HB_MAX_SEQ then Lag(x, next) else HB_MAX_SEQ
  {
  }

  lemma ResendUnfold(ring: seq<Heart>, x: int, next: nat)
    requires |ring| == HB_HISTORY_SIZE && -HB_HISTORY_SIZE < x && next < HB_MAX_SEQ
    ensures Resend(ring, x, next) ==
      if x == next then Resent([])
      else if x < 0 then OutOfRing(x)
      else if ring[Place(x)].seqno != x then Mismatch([])
      else Preceded([ring[Place(x)].data], Resend(ring, (x + 1) % HB_MAX_SEQ, next))
  {
  }

  lemma {:induction false} FindIs(q: seq<Key>, k: Key, i: nat)
    requires i <= |q| && (i < |q| ==> q[i] == k) && forall j :: 0 <= j < i ==> q[j] != k
    ensures Find(q, k) == i
    decreases i
  {
    if i > 0 {
      FindIs(q[1..], k, i - 1);
    }
  }
}
