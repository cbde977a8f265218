/** Sessions and tunnels can fill every heartbeat, so that the walk of the bundles never gets in. */
module ReplicationStarvation {
  import opened Common
  import Rle
  import opened Heartbeat
  import opened ClusterTables
  import opened ClusterPacket
  import opened ClusterHistory
  import opened ClusterNode
  import opened ClusterWalk
  import opened Replication
  import opened ReplicationProgress
  import Election

  // ---- structures that do not compress ----

  predicate NoZero(s: seq<Byte>, i: nat) { forall j :: i <= j < |s| ==> s[j] != 0 }

  /** Without zeros every run costs a byte more than it stands for. */
  lemma {:induction false} LiteralsCost(s: seq<Byte>, i: nat, room: int)
    requires i <= |s| && NoZero(s, i)
    ensures var ts := Rle.Pack(s, i, room); |ts.Code()| >= |ts.Plain()|
    decreases |s| - i
  {
    hide Rle.Pack, Rle.Head;
    if i == |s| || room <= 2 {
      Rle.PackNothing(s, i, room);
    } else {
      Rle.PackUnfold(s, i, room);
      var t := Rle.Head(s, i, room);
      LiteralsCost(s, i + |t.Plain()|, room - |t.Code()|);
    }
  }

  lemma NeverShortens(e: Element)
    requires NoZero(e.block, 0)
    ensures |Encode(e)| == 8 + |e.block|
  {
    hide Rle.Pack;
    LiteralsCost(e.block, 0, 2 * |e.block|);
  }

  // ---- a full packet ----

  /** The sizes of the structures on a 64-bit machine: 1144, 212 and 328 bytes. One session and at least 21 tunnels,
      with nothing in them that compresses, and a bundle. */
  ghost predicate Stuffed(L: Layout, slots: Slots, high: Trio<U32>) {
    && L == Layout(1144, 212, 328) && high.session == 1 && high.tunnel >= 21 && high.bundle >= 1
    && |Encode(ElementOf(L, slots, Key(Session, 1)))| == 1152
    && forall i: U32 :: 1 <= i <= high.tunnel ==> |Encode(ElementOf(L, slots, Key(Tunnel, i)))| == 336
  }

  lemma {:induction false} SizeSum(L: Layout, slots: Slots, before: seq<Key>, ks: seq<Key>, cost: nat)
    requires forall k :: k in ks ==> |Encode(ElementOf(L, slots, k))| == cost
    ensures SizeOf(L, slots, before + ks) == SizeOf(L, slots, before) + |ks| * cost
    decreases |ks|
  {
    hide SizeOf, Encode, ElementOf;
    if ks == [] {
      assert before + ks == before;
    } else {
      var n := |ks| - 1;
      SizeSum(L, slots, before, ks[..n], cost);
      SizeOfAppend(L, slots, before + ks[..n], ks[n]);
      assert before + ks == before + ks[..n] + [ks[n]];
      assert |ks| * cost == n * cost + cost;
    }
  }

  lemma SizeNone(L: Layout, slots: Slots)
    ensures SizeOf(L, slots, []) == 144
  {
  }

  /** The session walk takes the session. */
  lemma SessionIn(L: Layout, slots: Slots, high: Trio<U32>, w: U32, ss: seq<Key>, w': U32)
    requires Stuffed(L, slots, high) && OneWalk(L, slots, Session, 1, w, [], 1, ss, w')
    ensures SizeOf(L, slots, [] + ss) == 1296
  {
    hide SizeOf, Encode, ElementOf;
    SizeNone(L, slots);
    assert [] + ss == ss;
    if ss != [] {
      assert ss[0] == Key(Session, 1 + (Passed(w) + 0) % 1);
      assert ss == [Key(Session, 1)];
      SizeSum(L, slots, [], ss, 1152);
    }
  }

  /** Then twenty tunnels fit, and 176 bytes are left. */
  lemma TunnelsIn(L: Layout, slots: Slots, high: Trio<U32>, w: U32, before: seq<Key>, ts: seq<Key>, w': U32)
    requires Stuffed(L, slots, high) && SizeOf(L, slots, before) == 1296
    requires OneWalk(L, slots, Tunnel, high.tunnel, w, before, high.tunnel, ts, w')
    ensures SizeOf(L, slots, before + ts) == 8016
  {
    hide SizeOf, Encode, ElementOf;
    forall k | k in ts
      ensures |Encode(ElementOf(L, slots, k))| == 336
    {
      var j :| 0 <= j < |ts| && ts[j] == k;
      assert ts[j] == Key(Tunnel, 1 + (Passed(w) + j) % high.tunnel);
    }
    SizeSum(L, slots, before, ts, 336);
    if ts != [] {
      SizeSum(L, slots, before, ts[..|ts| - 1], 336);
      LastTaken(L, slots, Tunnel, high.tunnel, w, before, ts, w');
    }
  }

  /** A heartbeat with nothing queued has no room for a bundle, wherever the walks stand. */
  lemma NoBundle(L: Layout, e: Sent)
    requires Stuffed(L, e.slots, e.header.highest) && e.changes == [] && OnTable(e.header.highest, e.walk)
    ensures !HadRoom(L, e, Bundle)
  {
    hide SizeOf, Encode, ElementOf, OneWalk, Walked, WalkEnd;
    var slots, high := e.slots, e.header.highest;
    assert high.Get(Session) == 1 && high.Get(Tunnel) == high.tunnel;
    WalkIsOne(L, slots, Session, 1, e.walk.session, [], 1);
    var ss := WalkOf(L, slots, high, e.walk, [], Session);
    SessionIn(L, slots, high, e.walk.session, ss,
      WalkEnd(L, slots, Session, 1, e.walk.session, SizeOf(L, slots, []), 1));
    WalkIsOne(L, slots, Tunnel, high.tunnel, e.walk.tunnel, [] + ss, high.tunnel);
    TunnelsIn(L, slots, high, e.walk.tunnel, [] + ss, WalkOf(L, slots, high, e.walk, [] + ss, Tunnel),
      WalkEnd(L, slots, Tunnel, high.tunnel, e.walk.tunnel, SizeOf(L, slots, [] + ss), high.tunnel));
  }

  // ---- for ever ----

  /** Nothing is written. */
  predicate Quiet(moves: seq<Move>) { forall i :: 0 <= i < |moves| ==> !moves[i].Write? }

  ghost predicate Idle(w: World) {
    && Stuffed(w.c.L, w.m.tables.slots, w.m.highest) && w.m.changes == [] && OnTable(w.m.highest, w.m.walk)
    && forall n :: w.base <= n < |w.log| ==>
         var e := w.log[n];
         e.slots == w.m.tables.slots && e.header.highest == w.m.highest && e.changes == [] &&
         OnTable(e.header.highest, e.walk)
  }

  lemma IdleOn(w: World, mv: Move)
    requires Idle(w) && Enabled(w, mv) && !mv.Write?
    ensures Idle(Next(w, mv))
  {
    hide Stuffed, OnTable, Arrived, NextKeys, NextPacket, NextWalks, Bump, Stored;
    if mv.Timer? {
      BeatWalksOn(w.c, w.m);
    }
  }

  lemma {:induction false} IdleAlways(w: World, moves: seq<Move>)
    requires Idle(w) && IsRun(w, moves) && Quiet(moves)
    ensures Idle(After(w, moves))
    decreases |moves|
  {
    hide Idle, Enabled, Next;
    if moves != [] {
      assert !moves[0].Write?;
      IdleOn(w, moves[0]);
      assert forall i :: 0 <= i < |moves[1..]| ==> moves[1..][i] == moves[i + 1];
      IdleAlways(Next(w, moves[0]), moves[1..]);
    }
  }

  /** However many heartbeats are sent and applied, the slave never is up to date. */
  lemma BundlesStarve(w0: World, moves: seq<Move>)
    requires Fresh(w0) && Idle(w0) && IsRun(w0, moves) && Quiet(moves) && After(w0, moves).s.seqno != -1
    ensures !After(w0, moves).s.tables.uptodate
  {
    hide Fresh, Stuffed, OnTable, IsRun, After, HadRoom, Inv, Walking, Knows;
    IdleAlways(w0, moves);
    FreshKnows(w0, moves);
    var w := After(w0, moves);
    NextInLog(w);
    forall n | w.since <= n < w.next && n < |w.log|
      ensures !HadRoom(w.c.L, w.log[n], Bundle) && Key(Bundle, 1) !in w.log[n].changes
    {
      NoBundle(w.c.L, w.log[n]);
    }
    StuffedBundle(w.c.L, w.m.tables.slots, w.m.highest);
    StarvedIsNever(w0, moves, Bundle, 1);
  }

  lemma StuffedBundle(L: Layout, slots: Slots, high: Trio<U32>)
    requires Stuffed(L, slots, high)
    ensures high.Get(Bundle) >= 1
  {
  }

  // ---- such a cluster exists ----

  function Solid(n: nat): (b: Block)
    ensures |b| == n && NoZero(b, 0)
  {
    seq(n, _ => 1)
  }

  /** `n` entries in use behind the free one. */
  function TableOf(L: Layout, kind: Kind, n: nat): (t: seq<Slot>)
    ensures |t| == n + 1
    ensures forall i :: 0 <= i <= n ==> t[i] == Defined(if i == 0 then Free(L, kind) else Solid(L.Size(kind)))
  {
    seq(n + 1, i => Defined(if i == 0 then Free(L, kind) else Solid(L.Size(kind))))
  }

  function BlankOf(L: Layout, kind: Kind, n: nat): (t: seq<Slot>)
    ensures |t| == n + 1
    ensures forall i :: 0 <= i <= n ==> t[i] == if i == 0 then Defined(Free(L, kind)) else Undefined
  {
    seq(n + 1, i => if i == 0 then Defined(Free(L, kind)) else Undefined)
  }

  /** One session, 21 tunnels and one bundle, on a master and a slave that start. */
  function Example(): World {
    var L := Layout(1144, 212, 328);
    var ring := seq(HB_HISTORY_SIZE, _ => Heart(-1, []));
    var full := Trio(TableOf(L, Session, 1), TableOf(L, Bundle, 1), TableOf(L, Tunnel, 21));
    var blank := Trio(BlankOf(L, Session, 1), BlankOf(L, Bundle, 1), BlankOf(L, Tunnel, 21));
    var m := NodeState(Tables(full, Trio(0, 0, 0), true), Trio(1, 1, 21), Trio(0, 0, 0), [], 0, ring, 0, 0, 5, 150,
               true, 0, 0, -1, 0);
    var s := NodeState(Tables(blank, Trio(1, 1, 21), false), Trio(0, 0, 0), Trio(0, 0, 0), [], -1, ring, 0, 0, 5, 150,
               false, 0, 0, -1, 0);
    World(Config(L, Election.Candidate(1, 0), 7), m, 0, [], Config(L, Election.Candidate(2, 0), 7), s, 0, 0)
  }

  lemma ExampleStarves(moves: seq<Move>)
    requires IsRun(Example(), moves) && Quiet(moves)
    ensures Fresh(Example()) && Idle(Example())
    ensures After(Example(), moves).s.seqno != -1 ==> !After(Example(), moves).s.tables.uptodate
  {
    hide IsRun, After;
    ExampleFresh();
    ExampleIdle();
    if After(Example(), moves).s.seqno != -1 { BundlesStarve(Example(), moves); }
  }

  lemma ExampleFresh()
    ensures Fresh(Example())
  {
    hide Free, Solid;
    assert Number(0) == 0;
  }

  lemma ExampleIdle()
    ensures Idle(Example())
  {
    hide Encode, Free;
    var w := Example();
    var L, slots := w.c.L, w.m.tables.slots;
    NeverShortens(ElementOf(L, slots, Key(Session, 1)));
    forall i: U32 | 1 <= i <= 21
      ensures |Encode(ElementOf(L, slots, Key(Tunnel, i)))| == 336
    {
      NeverShortens(ElementOf(L, slots, Key(Tunnel, i)));
    }
  }
}
