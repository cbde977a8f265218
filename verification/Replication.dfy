/** A master and a slave over a network that loses, repeats and delays heartbeats: whatever the slave
    holds as defined is what the master held when it built the last heartbeat the slave applied. */
module Replication {
  import opened Common
  import opened Heartbeat
  import opened ClusterTables
  import opened ClusterPacket
  import opened ClusterHistory
  import opened ClusterNode
  import opened Election

  type Slots = Trio<seq<Slot>>

  /** A heartbeat ever sent, with what it was built from: the tables, the queue and where the walks stood. */
  datatype Sent = Sent(packet: seq<Byte>, header: Header, keys: seq<Key>, slots: Slots, changes: seq<Key>,
                       walk: Trio<U32>)

  /** `log[n]` is the n-th heartbeat; those before `base` are an earlier master's. `next` is the
      heartbeat the slave expects, once it has seen one, and `since` the first it took. */
  datatype World = World(c: Config, m: NodeState, base: nat, log: seq<Sent>,
                         sc: Config, s: NodeState, since: nat, next: nat)

  datatype Move =
    | Write(k: Key, block: Block)        // the master changes an entry and queues it
    | Timer                              // the master's heartbeat is due
    | Deliver(n: nat, now: int, secs: int) // heartbeat n arrives, first hand or resent

  // ---- steps ----

  /** Changing an entry: new_session and the like raise the highest id in use. */
  function Written(m: NodeState, k: Key, block: Block): NodeState
    requires k.id < |m.tables.slots.Get(k.kind)|
  {
    var t, high := m.tables.slots.Get(k.kind), m.highest.Get(k.kind);
    m.(tables := m.tables.(slots := m.tables.slots.Set(k.kind, t[k.id := Defined(block)])),
       highest := m.highest.Set(k.kind, if k.id > high then k.id else high))
  }

  predicate Steady(s: NodeState) {
    |s.ring| == HB_HISTORY_SIZE && -1 <= s.seqno < HB_MAX_SEQ && (s.master ==> s.seqno >= 0)
  }

  function SentBy(c: Config, m: NodeState): Sent
    requires 0 <= m.seqno < HB_MAX_SEQ
  {
    Sent(NextPacket(c, m), HeaderOf(c, m), NextKeys(c, m), m.tables.slots, m.changes, m.walk)
  }

  predicate Enabled(w: World, mv: Move) {
    && Steady(w.m) && w.m.seqno >= 0 && Steady(w.s)
    && match mv
       case Write(k, block) => 0 < k.id < |w.m.tables.slots.Get(k.kind)| && |block| == w.c.L.Size(k.kind)
       case Timer => true
       case Deliver(n, _, _) =>
         w.base <= n < |w.log| && |w.log[n].packet| >= 8 &&
         (w.s.seqno != -1 ==> -HB_MAX_SEQ < n - w.next < HB_MAX_SEQ)
  }

  function BeatStep(w: World, m: NodeState): World
    requires Steady(m) && m.seqno >= 0
  {
    w.(m := Beat(w.c, m), log := w.log + [SentBy(w.c, m)])
  }

  function Next(w: World, mv: Move): World
    requires Enabled(w, mv)
  {
    match mv
    case Write(k, block) =>
      var m := Written(w.m, k, block);
      var q := m.(changes := Requeued(m.changes, k));
      if |q.changes| > w.c.L.MaxChanges() then BeatStep(w, q) else w.(m := q)
    case Timer => BeatStep(w, w.m)
    case Deliver(n, now, secs) =>
      var (s, r) := Arrived(w.sc, w.s, w.log[n].packet, w.c.me.addr, now, secs);
      w.(s := s, next := if r.Done? then n + 1 else w.next,
         since := if r.Done? && w.s.seqno == -1 then n else w.since)
  }

  /** The master's half of `Next` is what the code does after an entry has been changed. */
  lemma WriteIsTypeChanged(w: World, k: Key, block: Block)
    requires Enabled(w, Write(k, block))
    ensures Next(w, Write(k, block)).m == Changed(w.c, Written(w.m, k, block), k)
  {
  }

  // ---- the invariant ----

  ghost predicate SameShape(a: Slots, b: Slots) { forall kind :: |a.Get(kind)| == |b.Get(kind)| }

  /** Ids are words. */
  ghost predicate Small(a: Slots) { forall kind :: |a.Get(kind)| <= WORD }

  /** Entry 0 and everything beyond the highest id in use is free. */
  ghost predicate FreeBeyond(L: Layout, slots: Slots, highest: Trio<U32>) {
    forall kind, i :: 0 <= i < |slots.Get(kind)| && (i == 0 || i > highest.Get(kind)) ==>
      slots.Get(kind)[i] == Defined(Free(L, kind))
  }

  /** Every entry in which the two differ is among `ks`. */
  ghost predicate DiffersOnly(a: Slots, b: Slots, ks: seq<Key>) {
    forall kind, i: U32 :: i < |a.Get(kind)| && i < |b.Get(kind)| && a.Get(kind)[i] != b.Get(kind)[i] ==>
      Key(kind, i) in ks
  }

  /** What the slave holds as defined is what `snap` says, but for the entries `ks`. */
  ghost predicate AgreesExcept(t: Slots, snap: Slots, ks: seq<Key>) {
    SameShape(t, snap) &&
    forall kind, i: U32 :: i < |t.Get(kind)| && i < |snap.Get(kind)| ==>
      t.Get(kind)[i].Undefined? || t.Get(kind)[i] == snap.Get(kind)[i] || Key(kind, i) in ks
  }

  ghost predicate Agrees(t: Slots, snap: Slots) { AgreesExcept(t, snap, []) }

  ghost predicate Genuine(c: Config, e: Sent, n: nat) {
    && e.packet == Packet(c.L, e.header, e.slots, e.keys) && |e.packet| <= MAX_HEART_SIZE
    && Full(c.L, e.slots) && FreeBeyond(c.L, e.slots, e.header.highest)
    && e.header.seqno == Number(n) && e.header.cluster == c.cluster
  }

  function Packets(log: seq<Sent>): (ps: seq<seq<Byte>>)
    ensures |ps| == |log| && forall i :: 0 <= i < |log| ==> ps[i] == log[i].packet
  {
    seq(|log|, i requires 0 <= i < |log| => log[i].packet)
  }

  /** A master about to send: its tables are complete, and its queue, which may be one over its limit,
      names whatever has changed since the last heartbeat. */
  ghost predicate Sending(w: World, m: NodeState) {
    && w.c.L.Sound() && Steady(m) && m.seqno == Number(|w.log|) && w.base <= |w.log|
    && Full(w.c.L, m.tables.slots) && FreeBeyond(w.c.L, m.tables.slots, m.highest)
    && |m.changes| <= w.c.L.MaxChanges() + 1 && Small(m.tables.slots)
    && Holds(m.ring, Packets(w.log), Max(w.base, |w.log| - HB_HISTORY_SIZE), |w.log|)
    && (|w.log| > w.base ==> DiffersOnly(w.log[|w.log| - 1].slots, m.tables.slots, m.changes))
    && (forall n :: w.base <= n < |w.log| ==> SameShape(w.log[n].slots, m.tables.slots))
  }

  ghost predicate MasterInv(w: World) { Sending(w, w.m) && |w.m.changes| <= w.c.L.MaxChanges() }

  ghost predicate LogInv(w: World) {
    && (forall n :: w.base <= n < |w.log| ==> Genuine(w.c, w.log[n], n))
    && (forall n :: w.base < n < |w.log| ==> DiffersOnly(w.log[n - 1].slots, w.log[n].slots, w.log[n].keys))
  }

  ghost predicate SlaveInv(w: World) {
    && Steady(w.s) && !w.s.master && w.sc.cluster == w.c.cluster && w.sc.L == w.c.L
    && (w.s.masterAddr == 0 || w.s.masterAddr == w.c.me.addr)
    && SameShape(w.s.tables.slots, w.m.tables.slots)
    && Counted(w.s.tables) && w.s.changes == []
    && if w.s.seqno == -1
       then Unknown(w.c.L, w.s.tables.slots)
       else
         && w.base <= w.since < w.next <= |w.log| && w.s.seqno == Number(w.next)
         && Agrees(w.s.tables.slots, w.log[w.next - 1].slots)
            && Holds(w.s.ring, Packets(w.log), Max(w.since, w.next - HB_HISTORY_SIZE), w.next)
  }

  /** A table nothing is known of yet: only entry 0 is defined, and free. */
  ghost predicate Unknown(L: Layout, t: Slots) {
    forall kind, i :: 0 <= i < |t.Get(kind)| ==> t.Get(kind)[i] == if i == 0 then Defined(Free(L, kind)) else Undefined
  }

  ghost predicate Inv(w: World) { MasterInv(w) && LogInv(w) && SlaveInv(w) }

  // ---- the master keeps it ----

  lemma HoldsGrows(ring: seq<Heart>, log: seq<seq<Byte>>, log': seq<seq<Byte>>, from: nat, n: nat)
    requires Holds(ring, log, from, n) && log <= log'
    ensures Holds(ring, log', from, n)
  {
    forall j | from <= j < n
      ensures ring[j % HB_HISTORY_SIZE] == Heart(Number(j), log'[j])
    {
      assert log[j] == log'[j];
    }
  }

  lemma PacketsAppend(log: seq<Sent>, e: Sent)
    ensures Packets(log + [e]) == Packets(log) + [e.packet]
  {
  }

  /** Sending a heartbeat records a genuine one. `m` is the master with the queue still to send. */
  lemma BeatIsGenuine(c: Config, m: NodeState, n: nat)
    requires c.L.Sound() && Steady(m) && m.seqno == Number(n)
    requires Full(c.L, m.tables.slots) && FreeBeyond(c.L, m.tables.slots, m.highest)
    requires |m.changes| <= c.L.MaxChanges() + 1
    ensures Genuine(c, SentBy(c, m), n)
  {
    hide Full, FreeBeyond, Packet, Carried, Bump;
    HeartbeatFits(c.L, HeaderOf(c, m), m.tables.slots, m.highest, m.walk, m.changes);
  }

  lemma CarriesChanges(c: Config, m: NodeState, k: Key)
    requires k in m.changes
    ensures k in NextKeys(c, m)
  {
    hide WalkOf;
  }

  lemma SameDiffersNone(a: Slots)
    ensures DiffersOnly(a, a, [])
  {
  }

  lemma DiffersTransfers(a: Slots, b: Slots, ks: seq<Key>, ks': seq<Key>)
    requires DiffersOnly(a, b, ks) && forall k :: k in ks ==> k in ks'
    ensures DiffersOnly(a, b, ks')
  {
  }

  /** After a heartbeat the queue is empty and nothing has changed since it was built. */
  lemma BeatKeeps(w: World, m: NodeState)
    requires LogInv(w) && Sending(w, m)
    ensures MasterInv(BeatStep(w, m)) && LogInv(BeatStep(w, m))
  {
    hide Full, FreeBeyond, Bump, Stored, NextPacket, NextWalks, HeaderOf, DiffersOnly, Genuine, Holds, NextKeys,
         SameShape;
    var w', e, n := BeatStep(w, m), SentBy(w.c, m), |w.log|;
    BeatIsGenuine(w.c, m, n);
    NextNumber(n);
    SameDiffersNone(m.tables.slots);
    SameShapeSelf(m.tables.slots);
    PacketsAppend(w.log, e);
    HoldsGrows(m.ring, Packets(w.log), Packets(w'.log), Max(w.base, n - HB_HISTORY_SIZE), n);
    StoredHolds(m.ring, Packets(w'.log), Max(w.base, n - HB_HISTORY_SIZE), n);
    if n > w.base {
      forall k | k in m.changes
        ensures k in e.keys
      {
        CarriesChanges(w.c, m, k);
      }
      DiffersTransfers(w.log[n - 1].slots, e.slots, m.changes, e.keys);
    }
    forall j | w.base <= j < |w'.log|
      ensures Genuine(w.c, w'.log[j], j) && SameShape(w'.log[j].slots, m.tables.slots)
      ensures j > w.base ==> DiffersOnly(w'.log[j - 1].slots, w'.log[j].slots, w'.log[j].keys)
    {
      if j < n { assert w'.log[j] == w.log[j]; }
    }
  }

  lemma SameShapeSelf(a: Slots)
    ensures SameShape(a, a)
  {
  }

  /** Changing an entry and queueing it leaves the master ready to send. */
  lemma WriteKeeps(w: World, k: Key, block: Block)
    requires MasterInv(w) && Enabled(w, Write(k, block))
    ensures var m := Written(w.m, k, block); Sending(w, m.(changes := Requeued(m.changes, k)))
  {
    hide Holds, Packets, Find, Remove, Number;
    var m := Written(w.m, k, block);
    var q := Requeued(w.m.changes, k);
    var t, t' := w.m.tables.slots, m.tables.slots;
    assert forall kind :: |t'.Get(kind)| == |t.Get(kind)|;
    WriteFull(w.c.L, w.m, k, block);
    if |w.log| > w.base {
      var last := w.log[|w.log| - 1].slots;
      forall kind, i: U32 | i < |last.Get(kind)| && i < |t'.Get(kind)| && last.Get(kind)[i] != t'.Get(kind)[i]
        ensures Key(kind, i) in q
      {
        if Key(kind, i) != k { assert t'.Get(kind)[i] == t.Get(kind)[i]; }
      }
    }
  }

  lemma WriteFull(L: Layout, m: NodeState, k: Key, block: Block)
    requires Full(L, m.tables.slots) && FreeBeyond(L, m.tables.slots, m.highest)
    requires 0 < k.id < |m.tables.slots.Get(k.kind)| && |block| == L.Size(k.kind)
    ensures var m' := Written(m, k, block); Full(L, m'.tables.slots) && FreeBeyond(L, m'.tables.slots, m'.highest)
  {
    hide Free;
    var m' := Written(m, k, block);
    forall kind, i | 0 <= i < |m'.tables.slots.Get(kind)|
      ensures var x := m'.tables.slots.Get(kind)[i]; x.Defined? && |x.block| == L.Size(kind)
      ensures i == 0 || i > m'.highest.Get(kind) ==> m'.tables.slots.Get(kind)[i] == Defined(Free(L, kind))
    {
      if kind != k.kind || i != k.id {
        assert m'.tables.slots.Get(kind)[i] == m.tables.slots.Get(kind)[i];
      }
    }
  }

  // ---- the slave keeps it ----

  lemma ReceiveShrinks(t: Tables, snap: Slots, ks: seq<Key>, e: Element)
    requires ks != [] && AgreesExcept(t.slots, snap, ks)
    requires e.kind == ks[0].kind && e.id == ks[0].id
    requires e.id < |snap.Get(e.kind)| ==> snap.Get(e.kind)[e.id] == Defined(e.block)
    ensures AgreesExcept(Received(t, e).slots, snap, ks[1..])
  {
    var t' := Received(t, e);
    forall kind, i: U32 | i < |t'.slots.Get(kind)| && i < |snap.Get(kind)|
      ensures t'.slots.Get(kind)[i].Undefined? || t'.slots.Get(kind)[i] == snap.Get(kind)[i] || Key(kind, i) in ks[1..]
    {
      if Key(kind, i) != ks[0] {
        assert t'.slots.Get(kind)[i] == t.slots.Get(kind)[i];
      }
    }
  }

  /** Receiving the current content of the entries in doubt settles them. */
  lemma {:induction false} ReceivingSettles(L: Layout, t: Tables, snap: Slots, ks: seq<Key>)
    requires Full(L, snap) && AgreesExcept(t.slots, snap, ks)
    ensures Agrees(ReceivedAll(t, ElementsOf(L, snap, ks)).slots, snap)
    decreases |ks|
  {
    hide AgreesExcept, Received;
    var es := ElementsOf(L, snap, ks);
    if ks == [] {
      assert es == [];
    } else {
      ReceiveShrinks(t, snap, ks, es[0]);
      assert es[1..] == ElementsOf(L, snap, ks[1..]);
      ReceivingSettles(L, Received(t, es[0]), snap, ks[1..]);
    }
  }

  /** Clearing what lies beyond the highest id in use says what the master says. */
  lemma CheckingAgrees(L: Layout, t: Tables, snap: Slots, ks: seq<Key>, highest: Trio<U32>)
    requires AgreesExcept(t.slots, snap, ks) && FreeBeyond(L, snap, highest)
    ensures AgreesExcept(Checked(L, t, highest).slots, snap, ks)
  {
    var t' := Checked(L, t, highest);
    hide Undefs, Free, Checked;
    CheckedSlots(L, t, highest);
    forall kind, i: U32 | i < |t'.slots.Get(kind)| && i < |snap.Get(kind)|
      ensures t'.slots.Get(kind)[i].Undefined? || t'.slots.Get(kind)[i] == snap.Get(kind)[i] || Key(kind, i) in ks
    {
      var x := t'.slots.Get(kind)[i];
      assert x == t.slots.Get(kind)[i] || (i > highest.Get(kind) && x == Defined(Free(L, kind)));
    }
  }

  lemma CheckedSlots(L: Layout, t: Tables, highest: Trio<U32>)
    ensures SameShape(Checked(L, t, highest).slots, t.slots)
    ensures forall kind, i :: 0 <= i < |t.slots.Get(kind)| ==>
      var x := Checked(L, t, highest).slots.Get(kind)[i];
      x == t.slots.Get(kind)[i] || (i > highest.Get(kind) && x == Defined(Free(L, kind)))
  {
  }

  /** What agreed with one snapshot agrees with the next but for what changed in between. */
  lemma AgreesLater(t: Slots, a: Slots, b: Slots, ks: seq<Key>)
    requires Agrees(t, a) && DiffersOnly(a, b, ks) && SameShape(a, b)
    ensures AgreesExcept(t, b, ks)
  {
    forall kind, i: U32 | i < |t.Get(kind)| && i < |b.Get(kind)|
      ensures t.Get(kind)[i].Undefined? || t.Get(kind)[i] == b.Get(kind)[i] || Key(kind, i) in ks
    {
      assert Key(kind, i) !in [];
    }
  }

  lemma UnknownAgrees(L: Layout, t: Slots, snap: Slots, ks: seq<Key>, highest: Trio<U32>)
    requires Unknown(L, t) && SameShape(t, snap) && FreeBeyond(L, snap, highest)
    ensures AgreesExcept(t, snap, ks)
  {
  }

  /** A genuine heartbeat, read in sequence: the slave's table says what the snapshot says. */
  lemma GenuineApplies(c: Config, s: NodeState, e: Sent, n: nat, from: U32)
    requires Genuine(c, e, n) && Steady(s) && AgreesExcept(s.tables.slots, e.slots, e.keys)
    ensures |e.packet| >= 8 + HEADER_SIZE
    ensures var (s', r) := InSequence(c, s, e.header, e.packet, from);
            && r == Done(Status.Complete) && Agrees(s'.tables.slots, e.slots)
            && s'.ring == Stored(s.ring, Number(n), e.packet) && s'.seqno == Number(n + 1)
            && s'.masterAddr == from && !s'.master == !s.master && s'.changes == s.changes
            && (Counted(s.tables) ==> Counted(s'.tables))
  {
    hide AgreesExcept, ReceivedAll, Checked, Parse, Packet, Full, FreeBeyond, Stored, Counted;
    if Counted(s.tables) {
      CheckedCounted(c.L, s.tables, e.header.highest);
      ReceivedAllCounted(Checked(c.L, s.tables, e.header.highest), ElementsOf(c.L, e.slots, e.keys));
    }
    PacketRoundTrip(c.L, e.header, e.slots, e.keys);
    CheckingAgrees(c.L, s.tables, e.slots, e.keys, e.header.highest);
    ReceivingSettles(c.L, Checked(c.L, s.tables, e.header.highest), e.slots, e.keys);
    NextNumber(n);
  }

  lemma Expected(w: World, n: nat)
    requires SlaveInv(w) && w.base <= n < |w.log|
    requires w.s.seqno != -1 ==> -HB_MAX_SEQ < n - w.next < HB_MAX_SEQ
    requires Number(n) == w.s.seqno
    ensures n == w.next
  {
    hide Number, Holds, Agrees, Unknown;
    NumberIsInjective(n, w.next);
  }

  /** The entries in doubt when heartbeat `n` is applied are among those it carries. */
  lemma InDoubt(w: World, n: nat)
    requires LogInv(w) && SlaveInv(w) && MasterInv(w) && w.base <= n < |w.log|
    requires w.s.seqno == -1 || n == w.next
    ensures AgreesExcept(w.s.tables.slots, w.log[n].slots, w.log[n].keys)
  {
    hide Full, Holds, Packets, AgreesExcept, Unknown, FreeBeyond, Number, DiffersOnly, Packet;
    assert Genuine(w.c, w.log[n], n);
    if w.s.seqno == -1 {
      UnknownAgrees(w.c.L, w.s.tables.slots, w.log[n].slots, w.log[n].keys, w.log[n].header.highest);
    } else {
      AgreesLater(w.s.tables.slots, w.log[n - 1].slots, w.log[n].slots, w.log[n].keys);
    }
  }

  lemma StartsHolding(ring: seq<Heart>, log: seq<seq<Byte>>, n: nat)
    requires |ring| == HB_HISTORY_SIZE && n <= |log|
    ensures Holds(ring, log, n, n)
  {
  }

  /** What the slave does with heartbeat `n`: all of it when it is the one expected, nothing to its
      tables otherwise. */
  lemma DeliverIs(w: World, n: nat, now: int, secs: int)
    requires Inv(w) && Enabled(w, Deliver(n, now, secs))
    ensures var e, s1 := w.log[n], w.s.(seqno := if w.s.seqno == -1 then Number(n) else w.s.seqno, lastHb := now);
            var (s', r) := Arrived(w.sc, w.s, e.packet, w.c.me.addr, now, secs);
            if w.s.seqno == -1 || n == w.next
            then (s', r) == InSequence(w.c, s1, e.header, e.packet, w.c.me.addr) && |e.packet| >= 8 + HEADER_SIZE
            else !r.Done? && s'.tables == w.s.tables && s'.ring == w.s.ring && s'.seqno == w.s.seqno
                 && s'.masterAddr == w.s.masterAddr && !s'.master && s'.changes == w.s.changes
  {
    hide AgreesExcept, ReceivedAll, Checked, Parse, Full, FreeBeyond, Stored, Word, DecodeHeader, Number,
         Holds, Packets, Unknown, Sending, Packet, InSequence;
    var e := w.log[n];
    assert Genuine(w.c, e, n);
    PacketRoundTrip(w.c.L, e.header, e.slots, e.keys);
    if w.s.seqno != -1 && Number(n) == w.s.seqno { Expected(w, n); }
    InSequenceIgnores(w.c, w.sc, w.s.(seqno := if w.s.seqno == -1 then Number(n) else w.s.seqno, lastHb := now),
      e.header, e.packet, w.c.me.addr);
  }

  /** Only the layout of a node's configuration matters to what it applies. */
  lemma InSequenceIgnores(c: Config, d: Config, s: NodeState, h: Header, z: seq<Byte>, from: U32)
    requires c.L == d.L && |z| >= 8 + HEADER_SIZE && |s.ring| == HB_HISTORY_SIZE
    ensures InSequence(c, s, h, z, from) == InSequence(d, s, h, z, from)
  {
  }

  lemma AcceptKeeps(w: World, n: nat, now: int, secs: int)
    requires Inv(w) && Enabled(w, Deliver(n, now, secs)) && (w.s.seqno == -1 || n == w.next)
    ensures SlaveInv(Next(w, Deliver(n, now, secs)))
  {
    hide AgreesExcept, Full, FreeBeyond, Stored, Number, Arrived, Unknown, Holds, InSequence, DiffersOnly, Packet,
         Genuine, Counted;
    DeliverIs(w, n, now, secs);
    var e := w.log[n];
    InDoubt(w, n);
    var s1 := w.s.(seqno := if w.s.seqno == -1 then Number(n) else w.s.seqno, lastHb := now);
    GenuineApplies(w.c, s1, e, n, w.c.me.addr);
    AgreesShape(Next(w, Deliver(n, now, secs)).s.tables.slots, e.slots);
    var since := if w.s.seqno == -1 then n else w.since;
    if w.s.seqno == -1 { StartsHolding(w.s.ring, Packets(w.log), n); }
    StoredHolds(w.s.ring, Packets(w.log), Max(since, n - HB_HISTORY_SIZE), n);
  }

  lemma DeliverKeeps(w: World, n: nat, now: int, secs: int)
    requires Inv(w) && Enabled(w, Deliver(n, now, secs))
    ensures Inv(Next(w, Deliver(n, now, secs)))
  {
    hide AgreesExcept, Full, FreeBeyond, Stored, Number, Arrived, Unknown, Holds, InSequence, DiffersOnly, Packet,
         Genuine, Counted;
    DeliverIs(w, n, now, secs);
    if w.s.seqno == -1 || n == w.next { AcceptKeeps(w, n, now, secs); }
  }

  lemma AgreesShape(t: Slots, snap: Slots)
    requires Agrees(t, snap)
    ensures SameShape(t, snap)
  {
  }

  /** A slave's half is not affected by what the master sends next. */
  lemma SlaveWaits(w: World, w': World)
    requires SlaveInv(w) && w.log <= w'.log && SameShape(w.m.tables.slots, w'.m.tables.slots)
    requires w' == w.(m := w'.m, log := w'.log)
    ensures SlaveInv(w')
  {
    hide AgreesExcept, Unknown, Number, Holds, Packets;
    assert Packets(w.log) <= Packets(w'.log);
    if w.s.seqno != -1 {
      HoldsGrows(w.s.ring, Packets(w.log), Packets(w'.log), Max(w.since, w.next - HB_HISTORY_SIZE), w.next);
    }
  }

  lemma WrittenShape(m: NodeState, k: Key, block: Block)
    requires k.id < |m.tables.slots.Get(k.kind)|
    ensures SameShape(m.tables.slots, Written(m, k, block).tables.slots)
  {
  }

  lemma NextKeepsInv(w: World, mv: Move)
    requires Inv(w) && Enabled(w, mv)
    ensures Inv(Next(w, mv))
  {
    hide LogInv, Sending, SlaveInv, Beat, SentBy, Arrived, Written, SameShape, Requeued;
    match mv {
      case Write(k, block) =>
        WriteKeeps(w, k, block);
        WrittenShape(w.m, k, block);
        var m := Written(w.m, k, block);
        var q := m.(changes := Requeued(m.changes, k));
        if |q.changes| > w.c.L.MaxChanges() { Beats(w, q); }
        Writes(w, q);
        SlaveWaits(w, Next(w, mv));
      case Timer =>
        SameShapeSelf(w.m.tables.slots);
        Beats(w, w.m);
        SlaveWaits(w, Next(w, mv));
      case Deliver(n, now, secs) => DeliverKeeps(w, n, now, secs);
    }
  }

  lemma Beats(w: World, m: NodeState)
    requires LogInv(w) && Sending(w, m)
    ensures Steady(m) && m.seqno >= 0
    ensures var w' := BeatStep(w, m); MasterInv(w') && LogInv(w') && w'.m.tables == m.tables
  {
    hide Full, FreeBeyond, Holds, DiffersOnly, Genuine;
    BeatKeeps(w, m);
  }

  lemma Writes(w: World, q: NodeState)
    requires LogInv(w) && Sending(w, q)
    ensures LogInv(w.(m := q)) && Sending(w.(m := q), q)
  {
    hide Full, FreeBeyond, Holds, DiffersOnly, Genuine;
  }

  // ---- runs ----

  predicate IsRun(w: World, moves: seq<Move>)
    decreases |moves|
  {
    moves == [] || (Enabled(w, moves[0]) && IsRun(Next(w, moves[0]), moves[1..]))
  }

  function After(w: World, moves: seq<Move>): World
    requires IsRun(w, moves)
    decreases |moves|
  {
    if moves == [] then w else After(Next(w, moves[0]), moves[1..])
  }

  /** A complete master that has sent nothing yet, and a slave that knows nothing yet. */
  ghost predicate Initial(w: World) {
    && w.c.L.Sound() && Steady(w.m) && |w.log| == w.base && w.m.seqno == Number(w.base)
    && Full(w.c.L, w.m.tables.slots) && FreeBeyond(w.c.L, w.m.tables.slots, w.m.highest)
    && |w.m.changes| <= w.c.L.MaxChanges() && Small(w.m.tables.slots)
    && Steady(w.s) && !w.s.master && w.s.seqno == -1 && w.sc.cluster == w.c.cluster && w.sc.L == w.c.L
    && (w.s.masterAddr == 0 || w.s.masterAddr == w.c.me.addr)
    && SameShape(w.s.tables.slots, w.m.tables.slots) && Unknown(w.c.L, w.s.tables.slots)
    && ClusterTables.Initial(w.s.tables) && w.s.changes == []
  }

  lemma {:induction false} RunKeepsInv(w: World, moves: seq<Move>)
    requires Inv(w) && IsRun(w, moves)
    ensures Inv(After(w, moves))
    decreases |moves|
  {
    hide Inv, Enabled, Next;
    if moves != [] {
      NextKeepsInv(w, moves[0]);
      RunKeepsInv(Next(w, moves[0]), moves[1..]);
    }
  }

  /** Once the slave has applied a heartbeat, every entry it holds as defined equals the master's
      entry at the moment the last one it applied was built. */
  ghost predicate Mirrors(w: World) {
    w.s.seqno != -1 ==>
      w.base < w.next <= |w.log| &&
      forall kind :: Matches(w.s.tables.slots.Get(kind), w.log[w.next - 1].slots.Get(kind))
  }

  ghost predicate Matches(t: seq<Slot>, snap: seq<Slot>) {
    |t| == |snap| && forall i :: 0 <= i < |t| && t[i].Defined? ==> t[i] == snap[i]
  }

  lemma AgreesMatches(t: Slots, snap: Slots)
    requires Agrees(t, snap) && forall kind :: |t.Get(kind)| <= WORD
    ensures forall kind :: Matches(t.Get(kind), snap.Get(kind))
  {
    forall kind, i | 0 <= i < |t.Get(kind)| && t.Get(kind)[i].Defined?
      ensures |t.Get(kind)| == |snap.Get(kind)| && t.Get(kind)[i] == snap.Get(kind)[i]
    {
      var id: U32 := i;
      assert Key(kind, id) !in [];
    }
  }

  lemma InvMirrors(w: World)
    requires Inv(w)
    ensures Mirrors(w)
  {
    hide Full, FreeBeyond, Holds, Unknown, DiffersOnly, Genuine, Packets, AgreesExcept, Number;
    if w.s.seqno != -1 {
      assert forall kind :: |w.s.tables.slots.Get(kind)| == |w.m.tables.slots.Get(kind)| <= WORD;
      AgreesMatches(w.s.tables.slots, w.log[w.next - 1].slots);
    }
  }

  /** Replication over every run: whatever is written, queued twice, flushed early, walked, lost,
      repeated or sent again, the slave mirrors the master. No heartbeat outgrows a packet. */
  lemma Replicates(w: World, moves: seq<Move>)
    requires Initial(w) && IsRun(w, moves)
    ensures var v := After(w, moves);
            && Mirrors(v)
            && forall n :: v.base <= n < |v.log| ==> |v.log[n].packet| <= MAX_HEART_SIZE
  {
    hide IsRun, After, Full, FreeBeyond, Holds, Unknown, DiffersOnly, Sending, SlaveInv, Mirrors, Packet;
    InitialInv(w);
    RunKeepsInv(w, moves);
    InvMirrors(After(w, moves));
  }

  lemma InitialInv(w: World)
    requires Initial(w)
    ensures Inv(w)
  {
    hide Full, FreeBeyond, Unknown, Packets, Counted;
    InitialCounted(w.s.tables);
    StartsHolding(w.m.ring, Packets(w.log), w.base);
  }

  // ---- catching up ----

  /** `count` heartbeats from number `from` on, delivered in order. */
  function Deliveries(from: nat, count: nat, now: int): (ms: seq<Move>)
    decreases count
  {
    if count == 0 then [] else [Deliver(from, now, 0)] + Deliveries(from + 1, count - 1, now)
  }

  /** The moves are possible, and after them the slave mirrors the last heartbeat of the log. */
  ghost predicate Levels(w: World, moves: seq<Move>) {
    IsRun(w, moves) && var v := After(w, moves); v.next == |v.log| && v.log == w.log && Mirrors(v)
  }

  /** In any reachable state a slave fewer than 64 behind is sent exactly what it misses, from the
      master's ring, and once that has arrived it is level with the last heartbeat. */
  lemma CatchUpHeals(w: World, now: int)
    requires Inv(w) && w.s.seqno != -1 && |w.log| - w.next < HB_HISTORY_SIZE
    ensures CaughtUp(w.m.ring, w.s.seqno, w.m.seqno) == Resent(Packets(w.log)[w.next..])
    ensures Levels(w, Deliveries(w.next, |w.log| - w.next, now))
  {
    hide Holds, AgreesExcept, Full, FreeBeyond, DiffersOnly, Genuine, Number, CaughtUp, Deliveries, Unknown, Levels;
    var ps := Packets(w.log);
    CatchUpDelivers(w.m.ring, ps, Max(w.base, |w.log| - HB_HISTORY_SIZE), w.next, |w.log|);
    assert ps[w.next..|w.log|] == ps[w.next..];
    DeliveredInOrder(w, now);
  }

  lemma {:induction false} DeliveredInOrder(w: World, now: int)
    requires Inv(w) && w.s.seqno != -1 && w.next <= |w.log|
    ensures Levels(w, Deliveries(w.next, |w.log| - w.next, now))
    decreases |w.log| - w.next
  {
    hide *;
    if w.next == |w.log| {
      InvMirrors(w);
      DeliveriesAre(w.next, 0, now);
      LevelNow(w);
    } else {
      var mv := Deliver(w.next, now, 0);
      DeliverOne(w, now);
      DeliveredInOrder(Next(w, mv), now);
      DeliveriesAre(w.next, |w.log| - w.next, now);
      LevelsLater(w, mv, Deliveries(w.next + 1, |w.log| - w.next - 1, now));
    }
  }

  lemma DeliveriesAre(from: nat, count: nat, now: int)
    ensures Deliveries(from, count, now) ==
            if count == 0 then [] else [Deliver(from, now, 0)] + Deliveries(from + 1, count - 1, now)
  {
  }

  lemma LevelNow(w: World)
    requires w.next == |w.log| && Mirrors(w)
    ensures Levels(w, [])
  {
  }

  lemma LevelsLater(w: World, mv: Move, moves: seq<Move>)
    requires Enabled(w, mv) && Next(w, mv).log == w.log && Levels(Next(w, mv), moves)
    ensures Levels(w, [mv] + moves)
  {
    hide Mirrors, Next, Enabled;
    assert ([mv] + moves)[1..] == moves;
  }

  lemma DeliverOne(w: World, now: int)
    requires Inv(w) && w.s.seqno != -1 && w.next < |w.log|
    ensures Enabled(w, Deliver(w.next, now, 0))
    ensures var v := Next(w, Deliver(w.next, now, 0));
            Inv(v) && v.next == w.next + 1 && v.log == w.log && v.s.seqno != -1
  {
    hide Holds, AgreesExcept, Full, FreeBeyond, DiffersOnly, Genuine, Number, Unknown, InSequence, Arrived, Packet;
    LongEnough(w, w.next);
    DeliverIs(w, w.next, now, 0);
    InDoubt(w, w.next);
    GenuineApplies(w.c, w.s.(lastHb := now), w.log[w.next], w.next, w.c.me.addr);
    DeliverKeeps(w, w.next, now, 0);
  }

  lemma LongEnough(w: World, n: nat)
    requires Inv(w) && w.base <= n < |w.log|
    ensures |w.log[n].packet| >= 8
  {
    hide Sending, SlaveInv;
    assert Genuine(w.c, w.log[n], n);
  }

  // ---- handing over ----

  /** A slave that becomes the master can itself bring others up to date from what it accepted. */
  lemma PromotedSlaveCatchesUp(w: World, m: nat)
    requires Inv(w) && w.s.seqno != -1 && w.since <= m <= w.next < m + HB_HISTORY_SIZE
    ensures var s := Promoted(w.sc, w.s);
            s.master && CaughtUp(s.ring, Number(m), s.seqno) == Resent(Packets(w.log)[m..w.next])
  {
    hide Sending, LogInv, Holds, AgreesExcept, Completed, Tops, CaughtUp, Number;
    CatchUpDelivers(w.s.ring, Packets(w.log), Max(w.since, w.next - HB_HISTORY_SIZE), m, w.next);
  }

  /** In any reachable state, a slave that has raised its flag holds all of the last snapshot it applied. */
  lemma UptodateHoldsAll(w: World)
    requires Inv(w) && w.s.seqno != -1 && w.s.tables.uptodate
    ensures w.s.tables.slots == w.log[w.next - 1].slots
  {
    hide Holds, Full, FreeBeyond, Genuine, Unknown, AgreesExcept, Packets, Number, DiffersOnly;
    InvMirrors(w);
    forall kind
      ensures w.s.tables.slots.Get(kind) == w.log[w.next - 1].slots.Get(kind)
    {
      var t := w.s.tables.slots.Get(kind);
      assert Undefs(t, |t|) == 0;
      NoUndefs(t, |t|);
      assert Matches(t, w.log[w.next - 1].slots.Get(kind));
    }
    SameTrio(w.s.tables.slots, w.log[w.next - 1].slots);
  }

  lemma SameTrio(a: Slots, b: Slots)
    requires forall kind :: a.Get(kind) == b.Get(kind)
    ensures a == b
  {
    assert a.Get(Session) == b.Get(Session) && a.Get(Bundle) == b.Get(Bundle) && a.Get(Tunnel) == b.Get(Tunnel);
  }

  /** Over every run: a slave that has raised its flag and is level with a master that has nothing queued
      holds the same tables as the master. */
  lemma UptodateMeansEqual(w0: World, moves: seq<Move>)
    requires Initial(w0) && IsRun(w0, moves)
    requires var w := After(w0, moves); w.s.seqno != -1 && w.next == |w.log| && w.m.changes == [] && w.s.tables.uptodate
    ensures var w := After(w0, moves); w.s.tables.slots == w.m.tables.slots
  {
    hide Holds, Full, FreeBeyond, Genuine, Unknown, AgreesExcept, Packets, Number, After, IsRun, Counted;
    InitialInv(w0);
    RunKeepsInv(w0, moves);
    var w := After(w0, moves);
    UptodateHoldsAll(w);
    forall kind
      ensures w.log[w.next - 1].slots.Get(kind) == w.m.tables.slots.Get(kind)
    {
      Undiffering(w, kind);
    }
    SameTrio(w.s.tables.slots, w.m.tables.slots);
  }

  lemma Undiffering(w: World, kind: Kind)
    requires MasterInv(w) && |w.log| > w.base && w.m.changes == []
    ensures w.log[|w.log| - 1].slots.Get(kind) == w.m.tables.slots.Get(kind)
  {
    hide Holds, Full, FreeBeyond, Packets, Number;
    var last, t := w.log[|w.log| - 1].slots.Get(kind), w.m.tables.slots.Get(kind);
    assert SameShape(w.log[|w.log| - 1].slots, w.m.tables.slots);
    forall i | 0 <= i < |t|
      ensures last[i] == t[i]
    {
      var id: U32 := i;
      assert Key(kind, id) !in [];
    }
  }

  /** What a promoted node holds and what a slave level with it holds agree, exactly when whatever the promoted
      node did not know, and so has freed, is free or unknown at the slave too. */
  lemma HandoverIff(w: World, v: World)
    requires Inv(w) && Inv(v) && SameMaster(w, v) && w.s.seqno != -1 && v.s.seqno != -1 && v.next == w.next
    ensures Agrees(v.s.tables.slots, Promoted(w.sc, w.s).tables.slots) <==> FreedIsUnknown(w, v)
  {
    hide Holds, Full, FreeBeyond, Genuine, Unknown, Packets, Number, DiffersOnly, Counted;
    InvMirrors(w);
    InvMirrors(v);
    var a, b, p := w.s.tables.slots, v.s.tables.slots, Promoted(w.sc, w.s).tables.slots;
    assert SameShape(b, p) by { SizesAgree(w, v); }
    forall kind, i: U32 | i < |a.Get(kind)| && i < |b.Get(kind)|
      ensures p.Get(kind)[i] == if a.Get(kind)[i].Undefined? then Defined(Free(w.c.L, kind)) else a.Get(kind)[i]
      ensures a.Get(kind)[i].Defined? && b.Get(kind)[i].Defined? ==> b.Get(kind)[i] == a.Get(kind)[i]
      ensures Key(kind, i) !in []
    {
      assert Matches(a.Get(kind), w.log[w.next - 1].slots.Get(kind)) &&
             Matches(b.Get(kind), v.log[v.next - 1].slots.Get(kind));
    }
  }

  lemma SizesAgree(w: World, v: World)
    requires Inv(w) && Inv(v) && SameMaster(w, v)
    ensures SameShape(v.s.tables.slots, Promoted(w.sc, w.s).tables.slots)
  {
    hide Holds, Full, FreeBeyond, Genuine, Unknown, Packets, Number, DiffersOnly, Counted, AgreesExcept, LogInv,
         Sending;
  }

  /** Two slaves of one master. */
  ghost predicate SameMaster(w: World, v: World) { w.c == v.c && w.m == v.m && w.base == v.base && w.log == v.log }

  ghost predicate FreedIsUnknown(w: World, v: World) {
    forall kind, i: U32 ::
      i < |w.s.tables.slots.Get(kind)| && i < |v.s.tables.slots.Get(kind)| &&
        w.s.tables.slots.Get(kind)[i].Undefined? ==>
      v.s.tables.slots.Get(kind)[i].Undefined? || v.s.tables.slots.Get(kind)[i] == Defined(Free(w.c.L, kind))
  }

  /** The slave of `w` has become the master; the slave of `v` has given the old master up. The log goes on from
      what the new master had accepted. */
  function Handover(w: World, v: World): World
    requires w.next <= |w.log|
  {
    World(w.sc, Promoted(w.sc, w.s), w.since, w.log[..w.next], v.sc, v.s.(masterAddr := 0), Max(v.since, w.since),
      v.next)
  }

  /** When an up-to-date slave takes over, a slave that is not ahead of it is in step with it at once: all that
      is proved of every run holds again from there, and the missed heartbeats come from the new master's ring. */
  lemma HandoverKeepsInv(w: World, v: World)
    requires Inv(w) && Inv(v) && SameMaster(w, v) && w.s.seqno != -1 && v.s.seqno != -1
    requires w.s.tables.uptodate && w.since < v.next <= w.next
    ensures w.next <= |w.log| && Inv(Handover(w, v))
  {
    hide Sending, LogInv, SlaveInv;
    NextInLog(w);
    HandoverMaster(w, v);
    HandoverLog(w, v);
    HandoverSlave(w, v);
  }

  lemma NextInLog(w: World)
    requires Inv(w) && w.s.seqno != -1
    ensures w.base <= w.since < w.next <= |w.log| && w.sc.L == w.c.L && w.sc.cluster == w.c.cluster
  {
    hide Holds, Full, FreeBeyond, Genuine, Unknown, Packets, Number, DiffersOnly, Counted, AgreesExcept;
  }

  lemma HandoverMaster(w: World, v: World)
    requires Inv(w) && w.s.seqno != -1 && w.s.tables.uptodate && w.next <= |w.log|
    ensures MasterInv(Handover(w, v))
  {
    hide Holds, Full, FreeBeyond, Genuine, Unknown, Packets, Number, DiffersOnly, Counted, AgreesExcept;
    UptodateHoldsAll(w);
    var u, n := Handover(w, v), w.next;
    CompletedNothing(w.sc.L, w.s.tables);
    PromotedIsComplete(w);
    PacketsUpTo(w.log, n);
    HoldsUpTo(w.s.ring, Packets(w.log), Max(w.since, n - HB_HISTORY_SIZE), Max(w.since, n - HB_HISTORY_SIZE), n, n);
    SameDiffersNone(u.m.tables.slots);
    DiffersTransfers(u.m.tables.slots, u.m.tables.slots, [], u.m.changes);
    ShapesAgree(w);
    assert u.log[|u.log| - 1].slots == u.m.tables.slots;
  }

  lemma HandoverLog(w: World, v: World)
    requires Inv(w) && w.s.seqno != -1 && w.next <= |w.log|
    ensures LogInv(Handover(w, v))
  {
    hide Holds, Full, FreeBeyond, Genuine, Unknown, Packets, Number, DiffersOnly, Counted, AgreesExcept, Sending;
    var u := Handover(w, v);
    forall j | u.base <= j < |u.log|
      ensures Genuine(u.c, u.log[j], j)
    {
      SameGenuine(w.c, w.sc, w.log[j], j);
    }
  }

  lemma HandoverSlave(w: World, v: World)
    requires Inv(w) && Inv(v) && SameMaster(w, v) && w.s.seqno != -1 && v.s.seqno != -1
    requires w.s.tables.uptodate && w.since < v.next <= w.next <= |w.log|
    ensures SlaveInv(Handover(w, v))
  {
    hide Holds, Full, FreeBeyond, Genuine, Unknown, Packets, Number, DiffersOnly, Counted, AgreesExcept, Sending,
         LogInv;
    UptodateHoldsAll(w);
    var u, n := Handover(w, v), w.next;
    CompletedNothing(w.sc.L, w.s.tables);
    PacketsUpTo(w.log, n);
    HoldsUpTo(v.s.ring, Packets(v.log), Max(v.since, v.next - HB_HISTORY_SIZE), Max(u.since, v.next - HB_HISTORY_SIZE),
      v.next, n);
    SizesAgree(w, v);
  }

  lemma SameGenuine(c: Config, d: Config, e: Sent, n: nat)
    requires c.L == d.L && c.cluster == d.cluster && Genuine(c, e, n)
    ensures Genuine(d, e, n)
  {
    hide Full, FreeBeyond, Packet;
  }

  lemma ShapesAgree(w: World)
    requires Inv(w) && w.s.seqno != -1
    ensures forall j :: w.base <= j < |w.log| ==> SameShape(w.log[j].slots, w.log[w.next - 1].slots)
    ensures Small(w.log[w.next - 1].slots)
  {
    hide Holds, Full, FreeBeyond, Genuine, Unknown, Packets, Number, DiffersOnly, Counted, AgreesExcept;
    assert SameShape(w.log[w.next - 1].slots, w.m.tables.slots);
  }

  lemma PacketsUpTo(log: seq<Sent>, n: nat)
    requires n <= |log|
    ensures Packets(log[..n]) == Packets(log)[..n]
  {
  }

  lemma HoldsUpTo(ring: seq<Heart>, log: seq<seq<Byte>>, from: nat, from': nat, n: nat, k: nat)
    requires Holds(ring, log, from, n) && from <= from' <= n <= k <= |log|
    ensures Holds(ring, log[..k], from', n)
  {
    forall j | from' <= j < n
      ensures ring[j % HB_HISTORY_SIZE] == Heart(Number(j), log[..k][j])
    {
      assert log[j] == log[..k][j];
    }
  }

  /** A node that knows everything frees nothing. */
  lemma CompletedNothing(L: Layout, t: Tables)
    requires Counted(t) && t.uptodate
    ensures Completed(L, t.slots) == t.slots
  {
    forall kind
      ensures Completed(L, t.slots).Get(kind) == t.slots.Get(kind)
    {
      var s := t.slots.Get(kind);
      assert Undefs(s, |s|) == 0;
      NoUndefs(s, |s|);
    }
    SameTrio(Completed(L, t.slots), t.slots);
  }

  lemma PromotedIsComplete(w: World)
    requires Inv(w) && w.s.seqno != -1 && w.s.tables.slots == w.log[w.next - 1].slots
    requires Completed(w.sc.L, w.s.tables.slots) == w.s.tables.slots
    ensures var m := Promoted(w.sc, w.s); Full(w.sc.L, m.tables.slots) && FreeBeyond(w.sc.L, m.tables.slots, m.highest)
  {
    hide Holds, Unknown, Packets, Number, DiffersOnly, Counted, AgreesExcept, Packet, Free, Top;
    var e, m := w.log[w.next - 1], Promoted(w.sc, w.s);
    assert Genuine(w.c, e, w.next - 1);
    assert SameShape(e.slots, w.m.tables.slots);
    forall kind, i | 0 <= i < |m.tables.slots.Get(kind)| && (i == 0 || i > m.highest.Get(kind))
      ensures m.tables.slots.Get(kind)[i] == Defined(Free(w.sc.L, kind))
    {
      var t := m.tables.slots.Get(kind);
      assert |t| <= WORD;
      if i > 0 { TopIs(t, Free(w.sc.L, kind), i); }
    }
  }

  lemma TopIs(t: seq<Slot>, free: Block, i: nat)
    requires |t| <= WORD && Top(t, free) < i < |t|
    ensures t[i] == Defined(free)
  {
  }
}
