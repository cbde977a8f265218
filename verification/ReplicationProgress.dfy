/** How soon a slave knows everything: the walks come round to every entry, and the flag is raised exactly when they
    have. */
module ReplicationProgress {
  import opened Common
  import opened Heartbeat
  import opened ClusterTables
  import opened ClusterPacket
  import opened ClusterHistory
  import opened ClusterNode
  import opened ClusterWalk
  import opened Replication

  // ---- the log remembers the walks ----

  ghost predicate Built(L: Layout, e: Sent) {
    e.keys == Carried(L, e.slots, e.header.highest, e.walk, e.changes)
  }

  /** Where the walks stood afterwards. */
  function Moved(L: Layout, e: Sent): Trio<U32> { NextWalks(L, e.slots, e.header.highest, e.walk, e.changes) }

  ghost predicate Le(a: Trio<U32>, b: Trio<U32>) { forall kind :: a.Get(kind) <= b.Get(kind) }

  /** The highest ids in use lie in the tables. */
  ghost predicate Within(high: Trio<U32>, slots: Slots) { forall kind :: high.Get(kind) < |slots.Get(kind)| }

  /** Every heartbeat walks on where the one before it stopped, and ids in use only become more. */
  ghost predicate Walking(w: World) {
    && (forall n :: w.base <= n < |w.log| ==>
          Built(w.c.L, w.log[n]) && Within(w.log[n].header.highest, w.log[n].slots) &&
          Le(w.log[n].header.highest, w.m.highest))
    && (forall n :: w.base < n < |w.log| ==> w.log[n].walk == Moved(w.c.L, w.log[n - 1]))
    && (forall a, n :: w.base <= a <= n < |w.log| ==> Le(w.log[a].header.highest, w.log[n].header.highest))
    && (|w.log| > w.base ==> w.m.walk == Moved(w.c.L, w.log[|w.log| - 1]))
    && Within(w.m.highest, w.m.tables.slots)
  }

  lemma BeatKeepsWalking(w: World, m: NodeState)
    requires Walking(w) && Steady(m) && m.seqno >= 0
    requires m.walk == w.m.walk && Le(w.m.highest, m.highest) && Within(m.highest, m.tables.slots)
    ensures Walking(BeatStep(w, m))
  {
    hide Carried, NextWalks, Stored, NextPacket, Bump;
    var e, w' := SentBy(w.c, m), BeatStep(w, m);
    assert Built(w.c.L, e) && w'.m.walk == Moved(w.c.L, e);
    assert forall n :: w.base <= n < |w.log| ==> w'.log[n] == w.log[n];
    assert forall n :: w.base <= n < |w.log| ==> Le(w.log[n].header.highest, m.highest);
  }

  lemma WriteKeepsWalking(m: NodeState, k: Key, block: Block)
    requires 0 < k.id < |m.tables.slots.Get(k.kind)| && Within(m.highest, m.tables.slots)
    ensures var m' := Written(m, k, block);
            m'.walk == m.walk && Le(m.highest, m'.highest) && Within(m'.highest, m'.tables.slots)
  {
  }

  lemma NextKeepsWalking(w: World, mv: Move)
    requires Walking(w) && Enabled(w, mv)
    ensures Walking(Next(w, mv))
  {
    hide Beat, SentBy, Arrived, Written, Requeued, Built, Moved, Le, Within;
    match mv {
      case Write(k, block) =>
        WriteKeepsWalking(w.m, k, block);
        var m := Written(w.m, k, block);
        var q := m.(changes := Requeued(m.changes, k));
        if |q.changes| > w.c.L.MaxChanges() {
          WrittenSteady(w.m, k, block);
          BeatKeepsWalking(w, q);
        } else {
          LaterHighest(w, q);
        }
      case Timer =>
        LeSelf(w.m.highest);
        BeatKeepsWalking(w, w.m);
      case Deliver(n, now, secs) =>
    }
  }

  lemma WrittenSteady(m: NodeState, k: Key, block: Block)
    requires k.id < |m.tables.slots.Get(k.kind)| && Steady(m) && m.seqno >= 0
    ensures Steady(Written(m, k, block)) && Written(m, k, block).seqno >= 0
  {
  }

  lemma LeSelf(a: Trio<U32>)
    ensures Le(a, a)
  {
  }

  lemma LaterHighest(w: World, q: NodeState)
    requires Walking(w) && q.walk == w.m.walk && Le(w.m.highest, q.highest) && Within(q.highest, q.tables.slots)
    ensures Walking(w.(m := q))
  {
    hide Built, Moved, Within;
  }

  /** A run from here on starts with an empty log. */
  ghost predicate Fresh(w: World) { Replication.Initial(w) && Within(w.m.highest, w.m.tables.slots) }

  lemma {:induction false} RunKeepsWalking(w: World, moves: seq<Move>)
    requires Walking(w) && IsRun(w, moves)
    ensures Walking(After(w, moves))
    decreases |moves|
  {
    hide Walking, Enabled, Next;
    if moves != [] {
      NextKeepsWalking(w, moves[0]);
      RunKeepsWalking(Next(w, moves[0]), moves[1..]);
    }
  }

  // ---- every id has its turn ----

  /** What stands before the walk of `kind` in a heartbeat, and what that walk adds. */
  function Before(L: Layout, e: Sent, kind: Kind): seq<Key> {
    var s := e.changes + WalkOf(L, e.slots, e.header.highest, e.walk, e.changes, Session);
    match kind
    case Session => e.changes
    case Tunnel => s
    case Bundle => s + WalkOf(L, e.slots, e.header.highest, e.walk, s, Tunnel)
  }

  function Part(L: Layout, e: Sent, kind: Kind): seq<Key> {
    WalkOf(L, e.slots, e.header.highest, e.walk, Before(L, e, kind), kind)
  }

  /** There was room when the walk of `kind` began. */
  predicate HadRoom(L: Layout, e: Sent, kind: Kind) { Room(L, kind, SizeOf(L, e.slots, Before(L, e, kind))) }

  /** In how many heartbeats there was. */
  function Chances(L: Layout, es: seq<Sent>, kind: Kind): (n: nat)
    ensures n <= |es|
  {
    if es == [] then 0 else (if HadRoom(L, es[0], kind) then 1 else 0) + Chances(L, es[1..], kind)
  }

  lemma PartIsCarried(L: Layout, e: Sent, kind: Kind)
    requires Built(L, e)
    ensures forall k :: k in Part(L, e, kind) ==> k in e.keys
    ensures Moved(L, e).Get(kind) ==
            NextWalk(L, e.slots, e.header.highest, e.walk, Before(L, e, kind), kind)
  {
    hide WalkOf, NextWalk;
  }

  /** One heartbeat's walk of one table. */
  lemma PartWalks(L: Layout, e: Sent, kind: Kind)
    requires Built(L, e) && e.header.highest.Get(kind) > 0
    ensures var high, w, w' := e.header.highest.Get(kind), e.walk.Get(kind), Moved(L, e).Get(kind);
            if w <= high
            then OneWalk(L, e.slots, kind, high, w, Before(L, e, kind), high, Part(L, e, kind), w')
            else if HadRoom(L, e, kind) then w' <= high else w' == w
  {
    hide Walked, WalkEnd, OneWalk, SizeOf, Before, Built, Room;
    var high, w, before := e.header.highest.Get(kind), e.walk.Get(kind), Before(L, e, kind);
    PartIsCarried(L, e, kind);
    if w <= high {
      WalkIsOne(L, e.slots, kind, high, w, before, high);
    } else {
      StrayReturns(L, e.slots, kind, high, w, before);
    }
  }

  /** Consecutive heartbeats while the highest id of `kind` is `high`. */
  ghost predicate Segment(L: Layout, es: seq<Sent>, kind: Kind, high: U32) {
    && (forall i :: 0 <= i < |es| ==> Built(L, es[i]) && es[i].header.highest.Get(kind) == high)
    && (forall i :: 0 < i < |es| ==> es[i].walk == Moved(L, es[i - 1]))
  }

  ghost predicate Taken(es: seq<Sent>, k: Key) { exists n :: 0 <= n < |es| && k in es[n].keys }

  lemma SegmentTail(L: Layout, es: seq<Sent>, kind: Kind, high: U32)
    requires Segment(L, es, kind, high) && es != []
    ensures Segment(L, es[1..], kind, high) && Built(L, es[0]) && es[0].header.highest.Get(kind) == high
    ensures |es| > 1 ==> es[1..][0].walk == Moved(L, es[0])
  {
    hide Built, Moved;
  }

  lemma TakenLater(es: seq<Sent>, k: Key)
    requires es != [] && Taken(es[1..], k)
    ensures Taken(es, k)
  {
    var n :| 0 <= n < |es| - 1 && k in es[1..][n].keys;
    assert k in es[n + 1].keys;
  }

  /** Which of the ids `j` places behind the start. */
  function Turn(kind: Kind, w: U32, high: U32, j: nat): (k: Key)
    requires high > 0
  {
    Key(kind, 1 + (Passed(w) + j) % high)
  }

  /** Adding a multiple in between does not matter. */
  lemma ModShift(x: nat, y: nat, n: nat)
    requires n > 0
    ensures (x % n + y) % n == (x + y) % n
  {
    var q, r := (x % n + y) / n, (x % n + y) % n;
    assert x == (x / n) * n + x % n;
    assert x + y == (x / n + q) * n + r;
    ModUnique(x + y, n, x / n + q, r);
  }

  /** One heartbeat takes the next few ids, at least one if there was room. */
  lemma PartTakes(L: Layout, e: Sent, kind: Kind, j: nat)
    requires Built(L, e) && 0 < e.header.highest.Get(kind) && e.walk.Get(kind) <= e.header.highest.Get(kind)
    ensures var high, w, n := e.header.highest.Get(kind), e.walk.Get(kind), |Part(L, e, kind)|;
            && Moved(L, e).Get(kind) <= high
            && Passed(Moved(L, e).Get(kind)) == (Passed(w) + n) % high
            && (HadRoom(L, e, kind) ==> n > 0)
            && (j < n ==> Turn(kind, w, high, j) in e.keys)
  {
    hide SizeOf, Before, Part, Moved, Built, OneWalk, Room, Turn, Passed, HadRoom;
    var high, w, w' := e.header.highest.Get(kind), e.walk.Get(kind), Moved(L, e).Get(kind);
    var before, ks := Before(L, e, kind), Part(L, e, kind);
    PartWalks(L, e, kind);
    PartIsCarried(L, e, kind);
    OneWalkStays(L, e.slots, kind, high, w, before, high, ks, w');
    if HadRoom(L, e, kind) { HadRoomTakes(L, e, kind, high, w, ks, w'); }
    if j < |ks| { TurnTaken(L, e.slots, kind, high, w, before, ks, w', j); }
  }

  lemma HadRoomTakes(L: Layout, e: Sent, kind: Kind, high: U32, w: U32, ks: seq<Key>, w': U32)
    requires HadRoom(L, e, kind) && high > 0 && OneWalk(L, e.slots, kind, high, w, Before(L, e, kind), high, ks, w')
    ensures ks != []
  {
    hide SizeOf, Before, OneWalk, Room;
    OneWalkTakes(L, e.slots, kind, high, w, Before(L, e, kind), high, ks, w');
  }

  lemma TurnTaken(L: Layout, slots: Slots, kind: Kind, high: U32, w: U32, before: seq<Key>, ks: seq<Key>, w': U32,
      j: nat)
    requires high > 0 && OneWalk(L, slots, kind, high, w, before, high, ks, w') && j < |ks|
    ensures ks[j] == Turn(kind, w, high, j)
  {
    hide OneWalk, Passed;
    OneWalkAt(L, slots, kind, high, w, before, high, ks, w', j);
  }

  lemma {:induction false} TurnsCome(L: Layout, es: seq<Sent>, kind: Kind, high: U32, j: nat)
    requires Segment(L, es, kind, high) && high > 0 && j < Chances(L, es, kind)
    requires es[0].walk.Get(kind) <= high
    ensures Taken(es, Turn(kind, es[0].walk.Get(kind), high, j))
    decreases |es|
  {
    hide Segment, HadRoom, Part, Built, Moved, Passed, Taken, Turn;
    var e := es[0];
    var w, n := e.walk.Get(kind), |Part(L, e, kind)|;
    SegmentTail(L, es, kind, high);
    PartTakes(L, e, kind, j);
    if j < n {
      TakenNow(es, Turn(kind, w, high, j));
    } else {
      assert |es| > 1 by { assert Chances(L, es, kind) <= (if HadRoom(L, e, kind) then 1 else 0) + |es[1..]|; }
      var w1 := Moved(L, e).Get(kind);
      TurnsCome(L, es[1..], kind, high, j - n);
      TurnOn(kind, w, w1, high, n, j);
      TakenLater(es, Turn(kind, w, high, j));
    }
  }

  lemma TurnOn(kind: Kind, w: U32, w1: U32, high: U32, n: nat, j: nat)
    requires high > 0 && Passed(w1) == (Passed(w) + n) % high && n <= j
    ensures Turn(kind, w1, high, j - n) == Turn(kind, w, high, j)
  {
    hide Passed;
    ModShift(Passed(w) + n, j - n, high);
  }

  lemma TakenNow(es: seq<Sent>, k: Key)
    requires es != [] && k in es[0].keys
    ensures Taken(es, k)
  {
  }

  /** How many heartbeats with room bring every id: as many as there are ids, and one more if the walk stood
      beyond them. */
  function Enough(high: U32, w: U32): nat { high + if w > high then 1 else 0 }

  lemma TurnOf(kind: Kind, w: U32, high: U32, id: U32)
    requires 1 <= id <= high && w <= high
    ensures exists j: nat :: j < high && Turn(kind, w, high, j) == Key(kind, id)
  {
    var p := Passed(w);
    var j: nat := if id - 1 >= p then id - 1 - p else id - 1 - p + high;
    if id - 1 >= p {
      ModUnique(p + j, high, 0, id - 1);
    } else {
      ModUnique(p + j, high, 1, id - 1);
    }
    assert Turn(kind, w, high, j) == Key(kind, id);
  }

  lemma {:induction false} AllTaken(L: Layout, es: seq<Sent>, kind: Kind, high: U32, id: U32)
    requires Segment(L, es, kind, high) && 1 <= id <= high
    requires es != [] && Chances(L, es, kind) >= Enough(high, es[0].walk.Get(kind))
    ensures Taken(es, Key(kind, id))
    decreases |es|
  {
    hide Segment, HadRoom, Part, Built, Moved, Taken, Turn, OneWalk;
    var w := es[0].walk.Get(kind);
    if w <= high {
      TurnOf(kind, w, high, id);
      var j: nat :| j < high && Turn(kind, w, high, j) == Key(kind, id);
      TurnsCome(L, es, kind, high, j);
    } else {
      SegmentTail(L, es, kind, high);
      PartWalks(L, es[0], kind);
      assert |es| > 1 by { assert Chances(L, es, kind) <= 1 + |es[1..]|; }
      AllTaken(L, es[1..], kind, high, id);
      TakenLater(es, Key(kind, id));
    }
  }

  /** The highest id of `kind` did not change from heartbeat `a` to before `b`. */
  ghost predicate Settled(w: World, a: nat, b: nat, kind: Kind, high: U32)
    requires b <= |w.log|
  {
    forall n :: a <= n < b ==> w.log[n].header.highest.Get(kind) == high
  }

  ghost predicate CarriedIn(log: seq<Sent>, a: nat, b: nat, k: Key)
    requires b <= |log|
  {
    exists n :: a <= n < b && k in log[n].keys
  }

  lemma SegmentOf(w: World, a: nat, b: nat, kind: Kind, high: U32)
    requires Walking(w) && w.base <= a < b <= |w.log| && Settled(w, a, b, kind, high)
    ensures Segment(w.c.L, w.log[a..b], kind, high)
  {
    hide Built, Moved, Within, Le;
    var es := w.log[a..b];
    forall i | 0 <= i < |es|
      ensures Built(w.c.L, es[i]) && es[i].header.highest.Get(kind) == high
      ensures i > 0 ==> es[i].walk == Moved(w.c.L, es[i - 1])
    {
      assert es[i] == w.log[a + i];
      if i > 0 { assert w.log[a + i].walk == Moved(w.c.L, w.log[a + i - 1]); }
    }
  }

  /** Over every run: while the highest id of a table stays the same, that many heartbeats in which its walk had room
      (one more if it stood beyond the highest id) carry every entry of the table between them. */
  lemma EveryIdIsCarried(w0: World, moves: seq<Move>, a: nat, b: nat, kind: Kind, high: U32, id: U32)
    requires Fresh(w0) && IsRun(w0, moves)
    requires var w := After(w0, moves);
             && w.base <= a < b <= |w.log| && Settled(w, a, b, kind, high) && 1 <= id <= high
             && Chances(w.c.L, w.log[a..b], kind) >= Enough(high, w.log[a].walk.Get(kind))
    ensures CarriedIn(After(w0, moves).log, a, b, Key(kind, id))
  {
    hide Walking, Segment, After, IsRun, Replication.Initial, Chances, Settled, Taken;
    FreshWalks(w0);
    RunKeepsWalking(w0, moves);
    CarriedOf(After(w0, moves), a, b, kind, high, id);
  }

  lemma CarriedOf(w: World, a: nat, b: nat, kind: Kind, high: U32, id: U32)
    requires Walking(w) && w.base <= a < b <= |w.log| && Settled(w, a, b, kind, high) && 1 <= id <= high
    requires Chances(w.c.L, w.log[a..b], kind) >= Enough(high, w.log[a].walk.Get(kind))
    ensures CarriedIn(w.log, a, b, Key(kind, id))
  {
    hide Walking, Segment, Chances, Settled;
    SegmentOf(w, a, b, kind, high);
    AllTaken(w.c.L, w.log[a..b], kind, high, id);
    var n :| 0 <= n < b - a && Key(kind, id) in w.log[a..b][n].keys;
    assert Key(kind, id) in w.log[a + n].keys;
  }

  lemma FreshWalks(w: World)
    requires Fresh(w)
    ensures Walking(w)
  {
    hide Full, FreeBeyond, Unknown, ClusterTables.Initial, Built, Moved, Within;
  }

  // ---- what a slave knows ----

  /** Until it hears a heartbeat a slave knows nothing. From the first one on it knows the entries beyond the ids in
      use then, and whatever it has been sent since; and it says so at once when that is all. */
  ghost predicate Knows(w: World) {
    if w.s.seqno == -1 then ClusterTables.Initial(w.s.tables)
    else
      && w.base <= w.since < w.next <= |w.log|
      && (w.s.tables.NoneUndefined() ==> w.s.tables.uptodate)
      && forall kind, i: U32 :: i < |w.s.tables.slots.Get(kind)| ==>
           (w.s.tables.slots.Get(kind)[i].Defined? <==> Known(w.log, w.since, w.next, kind, i))
  }

  ghost predicate Known(log: seq<Sent>, since: nat, next: nat, kind: Kind, i: U32)
    requires since < next <= |log|
  {
    i == 0 || i > log[since].header.highest.Get(kind) || CarriedIn(log, since, next, Key(kind, i))
  }

  lemma ReceivedDefines(t: Tables, e: Element, kind: Kind, i: U32)
    requires i < |t.slots.Get(kind)|
    ensures var t' := Received(t, e);
            && |t'.slots.Get(kind)| == |t.slots.Get(kind)|
            && (t'.slots.Get(kind)[i].Defined? <==> t.slots.Get(kind)[i].Defined? || (e.kind == kind && e.id == i))
  {
  }

  lemma ReceivedPrompt(t: Tables, e: Element)
    requires t.NoneUndefined() ==> t.uptodate
    ensures Received(t, e).NoneUndefined() ==> Received(t, e).uptodate
  {
  }

  lemma {:induction false} ReceivedAllDefines(t: Tables, es: seq<Element>, kind: Kind, i: U32)
    requires i < |t.slots.Get(kind)|
    ensures var t' := ReceivedAll(t, es);
            && |t'.slots.Get(kind)| == |t.slots.Get(kind)|
            && (t'.slots.Get(kind)[i].Defined? <==>
                t.slots.Get(kind)[i].Defined? || exists j :: 0 <= j < |es| && es[j].kind == kind && es[j].id == i)
    decreases |es|
  {
    hide Received;
    if es != [] {
      ReceivedDefines(t, es[0], kind, i);
      ReceivedAllDefines(Received(t, es[0]), es[1..], kind, i);
      assert forall j :: 0 < j < |es| ==> es[1..][j - 1] == es[j];
    }
  }

  lemma {:induction false} ReceivedAllPrompt(t: Tables, es: seq<Element>)
    requires t.NoneUndefined() ==> t.uptodate
    ensures ReceivedAll(t, es).NoneUndefined() ==> ReceivedAll(t, es).uptodate
    decreases |es|
  {
    hide Received;
    if es != [] {
      ReceivedPrompt(t, es[0]);
      ReceivedAllPrompt(Received(t, es[0]), es[1..]);
    }
  }

  /** Checking the first heartbeat clears what lies beyond the ids in use. */
  lemma FirstCheckDefines(L: Layout, t: Tables, high: Trio<U32>, kind: Kind, i: U32)
    requires ClusterTables.Initial(t) && Within(high, t.slots) && i < |t.slots.Get(kind)|
    ensures var t' := Checked(L, t, high);
            && |t'.slots.Get(kind)| == |t.slots.Get(kind)|
            && (t'.slots.Get(kind)[i].Defined? <==> i == 0 || i > high.Get(kind))
            && (t'.NoneUndefined() ==> t'.uptodate)
  {
    hide Undefs, Free;
    assert high.Get(Session) < |t.slots.Get(Session)|;
  }

  /** Checking a later one defines no entry up to the ids in use. */
  lemma LaterCheckDefines(L: Layout, t: Tables, high: Trio<U32>, kind: Kind, i: U32)
    requires i < |t.slots.Get(kind)|
    ensures var t' := Checked(L, t, high);
            && |t'.slots.Get(kind)| == |t.slots.Get(kind)|
            && (i <= high.Get(kind) || t.slots.Get(kind)[i].Defined? ==>
                (t'.slots.Get(kind)[i].Defined? <==> t.slots.Get(kind)[i].Defined?))
            && ((t.NoneUndefined() ==> t.uptodate) ==> (t'.NoneUndefined() ==> t'.uptodate))
  {
    hide Undefs, Free;
  }

  /** The tables after heartbeat `n` has been applied. */
  lemma AppliedIs(w: World, n: nat, now: int, secs: int)
    requires Inv(w) && Enabled(w, Deliver(n, now, secs)) && (w.s.seqno == -1 || n == w.next)
    ensures var e, w' := w.log[n], Next(w, Deliver(n, now, secs));
            && w'.s.tables == ReceivedAll(Checked(w.c.L, w.s.tables, e.header.highest),
                ElementsOf(w.c.L, e.slots, e.keys))
            && w'.next == n + 1 && w'.since == (if w.s.seqno == -1 then n else w.since) && w'.s.seqno != -1
  {
    hide AgreesExcept, ReceivedAll, Checked, Parse, Full, FreeBeyond, Stored, Number, Arrived, Unknown, Holds,
         DiffersOnly, Packet, Counted;
    var e := w.log[n];
    DeliverIs(w, n, now, secs);
    InDoubt(w, n);
    assert Genuine(w.c, e, n);
    PacketRoundTrip(w.c.L, e.header, e.slots, e.keys);
    var s1 := w.s.(seqno := if w.s.seqno == -1 then Number(n) else w.s.seqno, lastHb := now);
    GenuineApplies(w.c, s1, e, n, w.c.me.addr);
  }

  lemma CarriedNow(log: seq<Sent>, n: nat, k: Key)
    requires n < |log|
    ensures CarriedIn(log, n, n + 1, k) <==> k in log[n].keys
  {
  }

  lemma CarriedOn(log: seq<Sent>, a: nat, n: nat, k: Key)
    requires a <= n < |log|
    ensures CarriedIn(log, a, n + 1, k) <==> CarriedIn(log, a, n, k) || k in log[n].keys
  {
  }

  lemma ElementsNamed(L: Layout, slots: Slots, ks: seq<Key>, kind: Kind, i: U32)
    ensures var es := ElementsOf(L, slots, ks);
            (exists j :: 0 <= j < |es| && es[j].kind == kind && es[j].id == i) <==> Key(kind, i) in ks
  {
    var es := ElementsOf(L, slots, ks);
    forall j | 0 <= j < |ks|
      ensures es[j].kind == ks[j].kind && es[j].id == ks[j].id
    {
    }
    if Key(kind, i) in ks {
      var j :| 0 <= j < |ks| && ks[j] == Key(kind, i);
      assert es[j].kind == kind && es[j].id == i;
    }
  }

  /** What applying heartbeat `n` makes known. */
  lemma AppliedKnows(w: World, n: nat, now: int, secs: int, kind: Kind, i: U32)
    requires Inv(w) && Walking(w) && Knows(w) && Enabled(w, Deliver(n, now, secs))
    requires (w.s.seqno == -1 || n == w.next) && i < |w.s.tables.slots.Get(kind)|
    ensures var w' := Next(w, Deliver(n, now, secs));
            && w'.since < w'.next <= |w'.log| && |w'.s.tables.slots.Get(kind)| == |w.s.tables.slots.Get(kind)|
            && (w'.s.tables.slots.Get(kind)[i].Defined? <==> Known(w'.log, w'.since, w'.next, kind, i))
            && (w'.s.tables.NoneUndefined() ==> w'.s.tables.uptodate)
  {
    hide LogInv, MasterInv, SlaveInv, Arrived, ReceivedAll, Checked, ElementsOf, ClusterTables.Initial, CarriedIn,
         Built, Moved, Genuine, Le, Within;
    var e, t := w.log[n], w.s.tables;
    AppliedIs(w, n, now, secs);
    var c := Checked(w.c.L, t, e.header.highest);
    var es := ElementsOf(w.c.L, e.slots, e.keys);
    if w.s.seqno == -1 {
      SameSizes(w, n);
      FirstCheckDefines(w.c.L, t, e.header.highest, kind, i);
      CarriedNow(w.log, n, Key(kind, i));
    } else {
      LaterCheckDefines(w.c.L, t, e.header.highest, kind, i);
      CarriedOn(w.log, w.since, n, Key(kind, i));
      HighestGrows(w, w.since, n, kind);
    }
    ReceivedAllDefines(c, es, kind, i);
    ReceivedAllPrompt(c, es);
    ElementsNamed(w.c.L, e.slots, e.keys, kind, i);
  }

  lemma HighestGrows(w: World, a: nat, n: nat, kind: Kind)
    requires Walking(w) && w.base <= a <= n < |w.log|
    ensures w.log[a].header.highest.Get(kind) <= w.log[n].header.highest.Get(kind)
  {
    hide Built, Moved, Within;
    assert Le(w.log[a].header.highest, w.log[n].header.highest);
  }

  lemma SameSizes(w: World, n: nat)
    requires Inv(w) && Walking(w) && w.base <= n < |w.log|
    ensures Within(w.log[n].header.highest, w.s.tables.slots)
  {
    hide Full, FreeBeyond, Holds, Unknown, DiffersOnly, Genuine, Packets, AgreesExcept, Number, Built, Moved, Le,
         Counted;
    assert SameShape(w.log[n].slots, w.m.tables.slots);
  }

  /** What is in the log stays there. */
  lemma KnownLater(log: seq<Sent>, log': seq<Sent>, since: nat, next: nat, kind: Kind, i: U32)
    requires since < next <= |log| && log <= log'
    ensures Known(log', since, next, kind, i) <==> Known(log, since, next, kind, i)
  {
    assert forall n :: 0 <= n < |log| ==> log'[n] == log[n];
  }

  lemma NextKeepsKnows(w: World, mv: Move)
    requires Inv(w) && Walking(w) && Knows(w) && Enabled(w, mv)
    ensures Knows(Next(w, mv))
  {
    hide LogInv, Sending, Walking, Beat, SentBy, Arrived, Written, Requeued, Known, ClusterTables.Initial, SameShape,
         Counted, AgreesExcept, Unknown, Holds, Packets, Number, Tables.NoneUndefined;
    var w' := Next(w, mv);
    if mv.Deliver? {
      DeliverKeepsKnows(w, mv.n, mv.now, mv.secs);
    } else if w.s.seqno != -1 {
      forall kind, i: U32 | i < |w'.s.tables.slots.Get(kind)|
        ensures w'.s.tables.slots.Get(kind)[i].Defined? <==> Known(w'.log, w'.since, w'.next, kind, i)
      {
        KnownLater(w.log, w'.log, w.since, w.next, kind, i);
      }
    }
  }

  lemma DeliverKeepsKnows(w: World, n: nat, now: int, secs: int)
    requires Inv(w) && Walking(w) && Knows(w) && Enabled(w, Deliver(n, now, secs))
    ensures Knows(Next(w, Deliver(n, now, secs)))
  {
    hide Inv, Walking, Known, ClusterTables.Initial, Arrived, Tables.NoneUndefined, InSequence;
    var w' := Next(w, Deliver(n, now, secs));
    if w.s.seqno == -1 || n == w.next {
      AppliedShape(w, n, now, secs);
      forall kind, i: U32 | i < |w'.s.tables.slots.Get(kind)|
        ensures w'.s.tables.slots.Get(kind)[i].Defined? <==> Known(w'.log, w'.since, w'.next, kind, i)
      {
        AppliedKnows(w, n, now, secs, kind, i);
      }
    } else {
      DeliverIs(w, n, now, secs);
    }
  }

  lemma AppliedShape(w: World, n: nat, now: int, secs: int)
    requires Inv(w) && Walking(w) && Knows(w) && Enabled(w, Deliver(n, now, secs))
    requires w.s.seqno == -1 || n == w.next
    ensures var w' := Next(w, Deliver(n, now, secs));
            && w'.s.seqno != -1 && w'.base <= w'.since < w'.next <= |w'.log|
            && (w'.s.tables.NoneUndefined() ==> w'.s.tables.uptodate)
            && SameShape(w'.s.tables.slots, w.s.tables.slots)
  {
    hide Known, Arrived, Tables.NoneUndefined, InSequence, ClusterTables.Initial, ReceivedAll, Checked, Built, Moved,
         LogInv, Sending, AgreesExcept, Unknown, Holds, Packets, Number, Counted, ElementsOf, DiffersOnly, Genuine, Le;
    AppliedIs(w, n, now, secs);
    DeliverKeeps(w, n, now, secs);
    assert w.m.highest.Get(Session) < |w.m.tables.slots.Get(Session)|;
    AppliedKnows(w, n, now, secs, Session, 0);
  }

  lemma {:induction false} RunKeepsKnows(w: World, moves: seq<Move>)
    requires Inv(w) && Walking(w) && Knows(w) && IsRun(w, moves)
    ensures Inv(After(w, moves)) && Walking(After(w, moves)) && Knows(After(w, moves))
    decreases |moves|
  {
    hide Inv, Walking, Knows, Enabled, Next;
    if moves != [] {
      NextKeepsInv(w, moves[0]);
      NextKeepsWalking(w, moves[0]);
      NextKeepsKnows(w, moves[0]);
      RunKeepsKnows(Next(w, moves[0]), moves[1..]);
    }
  }

  lemma FreshKnows(w: World, moves: seq<Move>)
    requires Fresh(w) && IsRun(w, moves)
    ensures Inv(After(w, moves)) && Walking(After(w, moves)) && Knows(After(w, moves))
  {
    hide Inv, Walking, Full, FreeBeyond, Unknown, ClusterTables.Initial, Within, After, IsRun;
    InitialInv(w);
    FreshWalks(w);
    RunKeepsKnows(w, moves);
  }

  /** Every id that was in use when the slave's first heartbeat was built has been carried by one it has applied. */
  ghost predicate AllCome(w: World)
    requires w.since < w.next <= |w.log|
  {
    forall kind, id: U32 :: 1 <= id <= w.log[w.since].header.highest.Get(kind) ==>
      CarriedIn(w.log, w.since, w.next, Key(kind, id))
  }

  /** Over every run a slave that has applied a heartbeat is up to date if and only if every id in use when the first
      of them was built has been carried, by that one or by one it has applied since. */
  lemma UptodateIff(w0: World, moves: seq<Move>)
    requires Fresh(w0) && IsRun(w0, moves) && After(w0, moves).s.seqno != -1
    ensures var w := After(w0, moves);
            w.since < w.next <= |w.log| && (w.s.tables.uptodate <==> AllCome(w))
  {
    hide Inv, Walking, Knows, Fresh, IsRun, After, AllCome, CarriedIn, Replication.Initial;
    FreshKnows(w0, moves);
    FlagIs(After(w0, moves));
  }

  lemma FlagIs(w: World)
    requires Inv(w) && Walking(w) && Knows(w) && w.s.seqno != -1
    ensures w.since < w.next <= |w.log| && (w.s.tables.uptodate <==> AllCome(w))
  {
    hide LogInv, MasterInv, SlaveInv, CarriedIn, Built, Moved, Le, Counted;
    var t := w.s.tables;
    SlaveCounts(w);
    forall kind
      ensures t.uptodate ==> forall i :: 0 <= i < |t.slots.Get(kind)| ==> t.slots.Get(kind)[i].Defined?
      ensures !t.uptodate && t.undefined.Get(kind) != 0 ==>
              exists i: U32 :: i < |t.slots.Get(kind)| && t.slots.Get(kind)[i].Undefined?
    {
      CountedMeans(t, kind);
    }
    SameSizes(w, w.since);
    if AllCome(w) {
      forall kind, i: U32 | i < |t.slots.Get(kind)|
        ensures t.slots.Get(kind)[i].Defined?
      {
        assert Known(w.log, w.since, w.next, kind, i);
      }
      assert !t.uptodate ==>
        t.undefined.Get(Session) == 0 && t.undefined.Get(Tunnel) == 0 && t.undefined.Get(Bundle) == 0;
    }
    if t.uptodate {
      forall kind, id: U32 | 1 <= id <= w.log[w.since].header.highest.Get(kind)
        ensures CarriedIn(w.log, w.since, w.next, Key(kind, id))
      {
        assert t.slots.Get(kind)[id].Defined?;
        assert Known(w.log, w.since, w.next, kind, id);
      }
    }
  }

  lemma SlaveCounts(w: World)
    requires Inv(w)
    ensures Counted(w.s.tables) && forall kind :: |w.s.tables.slots.Get(kind)| <= WORD
  {
    hide Full, FreeBeyond, Holds, Unknown, DiffersOnly, Genuine, Packets, AgreesExcept, Number, Counted, LogInv;
    assert forall kind :: |w.s.tables.slots.Get(kind)| == |w.m.tables.slots.Get(kind)|;
  }

  lemma CountedMeans(t: Tables, kind: Kind)
    requires Counted(t) && |t.slots.Get(kind)| <= WORD
    ensures t.uptodate ==> forall i :: 0 <= i < |t.slots.Get(kind)| ==> t.slots.Get(kind)[i].Defined?
    ensures !t.uptodate && t.undefined.Get(kind) != 0 ==>
            exists i: U32 :: i < |t.slots.Get(kind)| && t.slots.Get(kind)[i].Undefined?
  {
    var s := t.slots.Get(kind);
    assert Undefs(s, |s|) == if t.uptodate then 0 else t.undefined.Get(kind);
    NoUndefs(s, |s|);
    if !t.uptodate && t.undefined.Get(kind) != 0 {
      var i :| 0 <= i < |s| && !s[i].Defined?;
      var id: U32 := i;
      assert id < |s| && s[id].Undefined?;
    }
  }

  // ---- when that happens ----

  /** Among the heartbeats from `a` to before `b` enough had room for the walk of `kind` to come round. */
  ghost predicate ComesRound(w: World, kind: Kind, a: nat, b: nat)
    requires a < b <= |w.log|
  {
    var high := w.log[a].header.highest.Get(kind);
    Settled(w, a, b, kind, high) && Chances(w.c.L, w.log[a..b], kind) >= Enough(high, w.log[a].walk.Get(kind))
  }

  /** Over every run: a slave that has applied, for each table, enough heartbeats in which its walk had room is up to
      date. */
  lemma WalksMakeUptodate(w0: World, moves: seq<Move>, a: Trio<nat>, b: Trio<nat>)
    requires Fresh(w0) && IsRun(w0, moves) && After(w0, moves).s.seqno != -1
    requires var w := After(w0, moves);
             forall kind :: w.base <= w.since <= a.Get(kind) < b.Get(kind) <= w.next <= |w.log| &&
                            ComesRound(w, kind, a.Get(kind), b.Get(kind))
    ensures After(w0, moves).s.tables.uptodate
  {
    hide Inv, Walking, Knows, Fresh, IsRun, After, CarriedIn, Settled, Replication.Initial, Chances;
    FreshKnows(w0, moves);
    var w := After(w0, moves);
    FlagIs(w);
    forall kind, id: U32 | 1 <= id <= w.log[w.since].header.highest.Get(kind)
      ensures CarriedIn(w.log, w.since, w.next, Key(kind, id))
    {
      var x, y := a.Get(kind), b.Get(kind);
      assert w.base <= w.since <= x < y <= w.next && ComesRound(w, kind, x, y);
      HighestGrows(w, w.since, x, kind);
      CarriedOf(w, x, y, kind, w.log[x].header.highest.Get(kind), id);
      CarriedWider(w.log, x, y, w.since, w.next, Key(kind, id));
    }
  }

  lemma CarriedWider(log: seq<Sent>, a: nat, b: nat, from: nat, to: nat, k: Key)
    requires from <= a <= b <= to <= |log| && CarriedIn(log, a, b, k)
    ensures CarriedIn(log, from, to, k)
  {
  }

  /** Over every run: as long as no heartbeat the slave has applied had room for the walk of some table, and none
      carried a change of some entry in use there, the slave is not up to date. */
  lemma StarvedIsNever(w0: World, moves: seq<Move>, kind: Kind, id: U32)
    requires Fresh(w0) && IsRun(w0, moves) && After(w0, moves).s.seqno != -1
    requires var w := After(w0, moves);
             && w.since < |w.log| && 1 <= id <= w.log[w.since].header.highest.Get(kind)
             && forall n :: w.since <= n < w.next && n < |w.log| ==>
                  !HadRoom(w.c.L, w.log[n], kind) && Key(kind, id) !in w.log[n].changes
    ensures !After(w0, moves).s.tables.uptodate
  {
    hide Inv, Knows, Fresh, IsRun, After, Replication.Initial, HadRoom, Within, Le, Moved, Built;
    FreshKnows(w0, moves);
    var w := After(w0, moves);
    NextInLog(w);
    FlagIs(w);
    if w.s.tables.uptodate {
      assert CarriedIn(w.log, w.since, w.next, Key(kind, id));
      var n :| w.since <= n < w.next && Key(kind, id) in w.log[n].keys;
      NotWalked(w.c.L, w.log[n], kind, id);
    }
  }

  /** A heartbeat without room for its walk carries an entry only if it has changed. */
  lemma NotWalked(L: Layout, e: Sent, kind: Kind, id: U32)
    requires Built(L, e) && !HadRoom(L, e, kind) && Key(kind, id) in e.keys
    ensures Key(kind, id) in e.changes
  {
    hide SizeOf, Walked;
    var high, walk := e.header.highest, e.walk;
    forall other: Kind, k | k in Part(L, e, other)
      ensures other != kind && k.kind == other
    {
      WalkKind(L, e.slots, other, high.Get(other), walk.Get(other), SizeOf(L, e.slots, Before(L, e, other)),
        high.Get(other));
      if other == kind {
        RoomIs(L, kind, SizeOf(L, e.slots, Before(L, e, kind)));
        WalkStops(L, e.slots, kind, high.Get(kind), walk.Get(kind), SizeOf(L, e.slots, Before(L, e, kind)),
          high.Get(kind));
      }
    }
    assert e.keys == e.changes + Part(L, e, Session) + Part(L, e, Tunnel) + Part(L, e, Bundle);
  }

  lemma {:induction false} WalkKind(L: Layout, slots: Slots, kind: Kind, highest: U32, w: U32, size: nat, left: nat)
    ensures forall k :: k in Walked(L, slots, kind, highest, w, size, left) ==> k.kind == kind
    decreases left
  {
    hide HasRoom, Advance, Encode, ElementOf;
    if HasRoom(L, kind, size) && left > 0 {
      var k := Key(kind, Start(w));
      WalkKind(L, slots, kind, highest, Advance(Start(w), highest), size + |Encode(ElementOf(L, slots, k))|, left - 1);
    }
  }

  // ---- room on quiet heartbeats ----

  /** A heartbeat with nothing queued has room for sessions exactly when a session is smaller than 4020 bytes. */
  lemma QuietSessions(L: Layout, e: Sent)
    requires e.changes == []
    ensures HadRoom(L, e, Session) <==> L.session < 4020
  {
    assert ElementsOf(L, e.slots, []) == [];
  }

  /** Behind them there is room for tunnels. */
  lemma QuietTunnels(L: Layout, e: Sent)
    requires Full(L, e.slots) && OnTable(e.header.highest, e.walk) && e.changes == []
    requires L.session < 4020 && L.tunnel + 8 <= L.session
    ensures HadRoom(L, e, Tunnel)
  {
    hide SizeOf, Full, WalkOf, NextWalk, OneWalk, Walked, WalkEnd, Room;
    QuietSessions(L, e);
    var high, w := e.header.highest, e.walk;
    assert high.Get(Session) > 0 ==> w.Get(Session) <= high.Get(Session);
    WalkIsOne(L, e.slots, Session, high.session, w.session, e.changes, high.session);
    WalkOfIs(L, e.slots, high, w, e.changes, Session);
    SessionsLeaveRoom(L, e.slots, Tunnel, high.session, w.session, e.changes,
      WalkOf(L, e.slots, high, w, e.changes, Session), NextWalk(L, e.slots, high, w, e.changes, Session));
  }

  lemma WalkOfIs(L: Layout, slots: Slots, high: Trio<U32>, walk: Trio<U32>, before: seq<Key>, kind: Kind)
    ensures WalkOf(L, slots, high, walk, before, kind) ==
            Walked(L, slots, kind, high.Get(kind), walk.Get(kind), SizeOf(L, slots, before), high.Get(kind))
    ensures NextWalk(L, slots, high, walk, before, kind) ==
            WalkEnd(L, slots, kind, high.Get(kind), walk.Get(kind), SizeOf(L, slots, before), high.Get(kind))
  {
  }

  /** And for bundles behind those, when no tunnel in use costs more than a tunnel is larger than a bundle. */
  lemma QuietBundles(L: Layout, e: Sent)
    requires Full(L, e.slots) && OnTable(e.header.highest, e.walk) && e.changes == []
    requires L.session < 4020 && L.bundle + 8 <= L.session && LightTunnels(L, e)
    ensures HadRoom(L, e, Bundle)
  {
    hide SizeOf, Full, WalkOf, NextWalk, OneWalk, Walked, WalkEnd, Room, Encode, ElementOf;
    QuietSessions(L, e);
    var high, w := e.header.highest, e.walk;
    assert high.Get(Session) > 0 ==> w.Get(Session) <= high.Get(Session);
    assert high.Get(Tunnel) > 0 ==> w.Get(Tunnel) <= high.Get(Tunnel);
    var s := e.changes + WalkOf(L, e.slots, high, w, e.changes, Session);
    WalkIsOne(L, e.slots, Session, high.session, w.session, e.changes, high.session);
    WalkOfIs(L, e.slots, high, w, e.changes, Session);
    SessionsLeaveRoom(L, e.slots, Bundle, high.session, w.session, e.changes,
      WalkOf(L, e.slots, high, w, e.changes, Session), NextWalk(L, e.slots, high, w, e.changes, Session));
    WalkIsOne(L, e.slots, Tunnel, high.tunnel, w.tunnel, s, high.tunnel);
    WalkOfIs(L, e.slots, high, w, s, Tunnel);
    var ts := WalkOf(L, e.slots, high, w, s, Tunnel);
    WalkNames(L, e.slots, Tunnel, high.tunnel, w.tunnel, s, ts, NextWalk(L, e.slots, high, w, s, Tunnel));
    TunnelsLeaveRoom(L, e.slots, high.tunnel, w.tunnel, s, ts, NextWalk(L, e.slots, high, w, s, Tunnel));
  }

  ghost predicate LightTunnels(L: Layout, e: Sent) {
    forall i: U32 :: 1 <= i <= e.header.highest.tunnel ==>
      |Encode(ElementOf(L, e.slots, Key(Tunnel, i)))| + L.bundle <= L.tunnel
  }

  lemma WalkNames(L: Layout, slots: Slots, kind: Kind, high: U32, w: U32, before: seq<Key>, ks: seq<Key>, w': U32)
    requires OneWalk(L, slots, kind, high, w, before, high, ks, w')
    ensures forall k :: k in ks ==> k.kind == kind && 1 <= k.id <= high
  {
    hide SizeOf, Room;
    forall k | k in ks
      ensures k.kind == kind && 1 <= k.id <= high
    {
      var j :| 0 <= j < |ks| && ks[j] == k;
      assert ks[j] == Key(kind, 1 + (Passed(w) + j) % high);
    }
  }

  // ---- a quiet cluster settles ----

  /** From heartbeat `a` on nothing is queued and no id comes into use; structures have sensible sizes and the tunnels
      compress well. */
  ghost predicate Calm(w: World, a: nat) {
    && a < w.next <= |w.log| && w.base <= w.since <= a
    && w.c.L.session < 4020 && w.c.L.tunnel + 8 <= w.c.L.session && w.c.L.bundle + 8 <= w.c.L.session
    && OnTable(w.log[a].header.highest, w.log[a].walk)
    && forall n :: a <= n < w.next ==>
         && w.log[n].changes == [] && LightTunnels(w.c.L, w.log[n])
         && forall kind :: w.log[n].header.highest.Get(kind) == w.log[a].header.highest.Get(kind)
  }

  lemma {:induction false} StaysOnTable(w: World, a: nat, n: nat)
    requires Walking(w) && Calm(w, a) && a <= n < w.next
    ensures OnTable(w.log[n].header.highest, w.log[n].walk)
    decreases n
  {
    hide Built, Moved, Le, Within, LightTunnels, HadRoom, Part;
    if n > a {
      StaysOnTable(w, a, n - 1);
      var e := w.log[n - 1];
      forall kind | w.log[n].header.highest.Get(kind) > 0
        ensures w.log[n].walk.Get(kind) <= w.log[n].header.highest.Get(kind)
      {
        PartTakes(w.c.L, e, kind, 0);
      }
    }
  }

  lemma CalmHasRoom(w: World, a: nat, n: nat, kind: Kind)
    requires Inv(w) && Walking(w) && Calm(w, a) && a <= n < w.next
    ensures HadRoom(w.c.L, w.log[n], kind)
  {
    hide Sending, SlaveInv, Built, Moved, Le, Within, LightTunnels, HadRoom, Part, FreeBeyond, Packet, DiffersOnly,
         Full;
    assert Genuine(w.c, w.log[n], n);
    StaysOnTable(w, a, n);
    match kind {
      case Session => QuietSessions(w.c.L, w.log[n]);
      case Tunnel => QuietTunnels(w.c.L, w.log[n]);
      case Bundle => QuietBundles(w.c.L, w.log[n]);
    }
  }

  lemma {:induction false} AllChances(L: Layout, es: seq<Sent>, kind: Kind)
    requires forall i :: 0 <= i < |es| ==> HadRoom(L, es[i], kind)
    ensures Chances(L, es, kind) == |es|
    decreases |es|
  {
    hide HadRoom;
    if es != [] {
      AllChances(L, es[1..], kind);
    }
  }

  /** Over every run: a slave that has applied, while the cluster was calm, as many heartbeats as the highest id in
      use in any table is up to date. */
  lemma CalmMakesUptodate(w0: World, moves: seq<Move>, a: nat)
    requires Fresh(w0) && IsRun(w0, moves) && After(w0, moves).s.seqno != -1 && Calm(After(w0, moves), a)
    requires var w := After(w0, moves);
             forall kind :: w.next - a >= w.log[a].header.highest.Get(kind)
    ensures After(w0, moves).s.tables.uptodate
  {
    hide Inv, Walking, Fresh, Knows, IsRun, After, Calm, Chances, HadRoom, Replication.Initial, OnTable;
    FreshKnows(w0, moves);
    var w := After(w0, moves);
    CalmIs(w, a);
    FlagIs(w);
    forall kind, id: U32 | 1 <= id <= w.log[w.since].header.highest.Get(kind)
      ensures CarriedIn(w.log, w.since, w.next, Key(kind, id))
    {
      var high := w.log[a].header.highest.Get(kind);
      forall i | 0 <= i < w.next - a
        ensures HadRoom(w.c.L, w.log[a..w.next][i], kind)
      {
        CalmHasRoom(w, a, a + i, kind);
      }
      AllChances(w.c.L, w.log[a..w.next], kind);
      HighestGrows(w, w.since, a, kind);
      CalmSettles(w, a, kind);
      CarriedOf(w, a, w.next, kind, high, id);
      CarriedWider(w.log, a, w.next, w.since, w.next, Key(kind, id));
    }
  }

  lemma CalmIs(w: World, a: nat)
    requires Calm(w, a)
    ensures a < w.next <= |w.log| && w.base <= w.since <= a
  {
  }

  lemma CalmSettles(w: World, a: nat, kind: Kind)
    requires Calm(w, a)
    ensures Settled(w, a, w.next, kind, w.log[a].header.highest.Get(kind))
    ensures w.log[a].header.highest.Get(kind) > 0 ==>
            Enough(w.log[a].header.highest.Get(kind), w.log[a].walk.Get(kind)) == w.log[a].header.highest.Get(kind)
  {
  }
}
