/** How far one heartbeat walks each table, and where the next one goes on. */
module ClusterWalk {
  import opened Common
  import opened Heartbeat
  import opened ClusterTables
  import opened ClusterPacket
  import opened ClusterHistory
  import opened ClusterNode

  /** How many ids lie before the one a walk at `w` takes next; 0 stands for the first. */
  function Passed(w: U32): nat { if w == 0 then 0 else w - 1 }

  /** A walk adds an entry only to a packet of which this much is free: sessions leave room for one more. */
  function Needs(L: Layout, kind: Kind): nat {
    match kind
    case Session => 8 + 2 * L.session
    case Bundle => 8 + L.bundle
    case Tunnel => 8 + L.tunnel
  }

  predicate Room(L: Layout, kind: Kind, size: nat) { size + Needs(L, kind) < 8192 }

  /** A walk of a table whose highest id is `high`, from `w` to `w'`, behind the entries `before`: it takes the
      ids in turn, cyclically, as long as there is room, and at most `left` of them; the next one goes on there. */
  ghost predicate OneWalk(L: Layout, slots: Trio<seq<Slot>>, kind: Kind, high: U32, w: U32, before: seq<Key>,
      left: nat, ks: seq<Key>, w': U32)
    requires left > 0 ==> high > 0
  {
    && |ks| <= left
    && (forall k :: 0 <= k < |ks| ==> ks[k] == Key(kind, 1 + (Passed(w) + k) % high))
    && (forall k :: 0 <= k < |ks| ==> Room(L, kind, SizeOf(L, slots, before + ks[..k])))
    && (|ks| == left || !Room(L, kind, SizeOf(L, slots, before + ks)))
    && (high > 0 ==> w' <= high && Passed(w') == (Passed(w) + |ks|) % high)
  }

  lemma RoomIs(L: Layout, kind: Kind, size: nat)
    ensures Room(L, kind, size) == HasRoom(L, kind, size)
  {
  }

  /** One place further on, cyclically. */
  lemma Onward(w: U32, high: U32, k: nat)
    requires w <= high && high > 0
    ensures Start(w) == 1 + Passed(w) % high && Advance(Start(w), high) <= high
    ensures (Passed(Advance(Start(w), high)) + k) % high == (Passed(w) + k + 1) % high
  {
    hide Advance;
    AdvanceIs(Start(w), high);
    ModUnique(Passed(w), high, 0, Passed(w));
    if Start(w) == high { DropOne(k, high); }
  }

  /** The walk is one. */
  lemma {:induction false} WalkIsOne(L: Layout, slots: Trio<seq<Slot>>, kind: Kind, high: U32, w: U32,
      before: seq<Key>, left: nat)
    requires left > 0 ==> high > 0
    requires high > 0 ==> w <= high
    ensures OneWalk(L, slots, kind, high, w, before, left,
              Walked(L, slots, kind, high, w, SizeOf(L, slots, before), left),
              WalkEnd(L, slots, kind, high, w, SizeOf(L, slots, before), left))
    decreases left
  {
    hide SizeOf, HasRoom, Advance, Walked, WalkEnd, Room, OneWalk, Encode, ElementOf;
    var size := SizeOf(L, slots, before);
    RoomIs(L, kind, size);
    if !HasRoom(L, kind, size) || left == 0 {
      WalkStops(L, slots, kind, high, w, size, left);
      NoMore(L, slots, kind, high, w, before, left, if HasRoom(L, kind, size) then Start(w) else w);
    } else {
      var k := Key(kind, Start(w));
      var w1 := Advance(Start(w), high);
      Onward(w, high, 0);
      SizeOfAppend(L, slots, before, k);
      WalkGoesOn(L, slots, kind, high, w, size, left);
      WalkIsOne(L, slots, kind, high, w1, before + [k], left - 1);
      var rest := Walked(L, slots, kind, high, w1, SizeOf(L, slots, before + [k]), left - 1);
      OneMore(L, slots, kind, high, w, before, left, rest,
        WalkEnd(L, slots, kind, high, w1, SizeOf(L, slots, before + [k]), left - 1));
    }
  }

  lemma NoMore(L: Layout, slots: Trio<seq<Slot>>, kind: Kind, high: U32, w: U32, before: seq<Key>, left: nat, w': U32)
    requires left > 0 ==> high > 0
    requires high > 0 ==> w <= high
    requires w' == w || w' == Start(w)
    requires left == 0 || !Room(L, kind, SizeOf(L, slots, before))
    ensures OneWalk(L, slots, kind, high, w, before, left, [], w')
  {
    hide SizeOf, Room;
    assert before + [] == before;
    if high > 0 { ModUnique(Passed(w), high, 0, Passed(w)); }
  }

  lemma OneMore(L: Layout, slots: Trio<seq<Slot>>, kind: Kind, high: U32, w: U32, before: seq<Key>, left: nat,
      rest: seq<Key>, w': U32)
    requires 0 < left && w <= high && high > 0 && Room(L, kind, SizeOf(L, slots, before))
    requires OneWalk(L, slots, kind, high, Advance(Start(w), high), before + [Key(kind, Start(w))], left - 1, rest, w')
    ensures OneWalk(L, slots, kind, high, w, before, left, [Key(kind, Start(w))] + rest, w')
  {
    hide SizeOf, Room, Advance;
    var k0 := Key(kind, Start(w));
    var ks := [k0] + rest;
    Onward(w, high, 0);
    forall k | 0 <= k < |ks|
      ensures ks[k] == Key(kind, 1 + (Passed(w) + k) % high) && Room(L, kind, SizeOf(L, slots, before + ks[..k]))
    {
      if k == 0 {
        assert before + ks[..0] == before;
      } else {
        Onward(w, high, k - 1);
        assert before + ks[..k] == before + [k0] + rest[..k - 1];
      }
    }
    Onward(w, high, |rest|);
    assert before + ks == before + [k0] + rest;
  }

  /** A walk that stands beyond the highest id, where counting may have left it on a slave, takes that id first. */
  lemma StrayWalk(L: Layout, slots: Trio<seq<Slot>>, kind: Kind, high: U32, w: U32, before: seq<Key>)
    requires 0 < high < w
    ensures var size := SizeOf(L, slots, before);
            var ks, w' := Walked(L, slots, kind, high, w, size, high), WalkEnd(L, slots, kind, high, w, size, high);
            if Room(L, kind, size)
            then
              && |ks| > 0 && ks[0] == Key(kind, w)
              && (1 + w) % (high + 1) <= high
              && OneWalk(L, slots, kind, high, (1 + w) % (high + 1), before + [ks[0]], high - 1, ks[1..], w')
            else ks == [] && w' == w
  {
    hide SizeOf, HasRoom, Walked, WalkEnd, Room, OneWalk, Encode, ElementOf;
    var size := SizeOf(L, slots, before);
    RoomIs(L, kind, size);
    if !HasRoom(L, kind, size) {
      WalkStops(L, slots, kind, high, w, size, high);
    } else {
      var k := Key(kind, w);
      var w1 := Advance(w, high);
      WalkGoesOn(L, slots, kind, high, w, size, high);
      SizeOfAppend(L, slots, before, k);
      WalkIsOne(L, slots, kind, high, w1, before + [k], high - 1);
      var rest := Walked(L, slots, kind, high, w1, SizeOf(L, slots, before + [k]), high - 1);
      assert ([k] + rest)[1..] == rest;
    }
  }

  /** If it could take that one, the next walk stands on the table again. */
  lemma StrayReturns(L: Layout, slots: Trio<seq<Slot>>, kind: Kind, high: U32, w: U32, before: seq<Key>)
    requires 0 < high < w
    ensures var size := SizeOf(L, slots, before);
            var w' := WalkEnd(L, slots, kind, high, w, size, high);
            if Room(L, kind, size) then w' <= high else w' == w
  {
    hide SizeOf, Walked, WalkEnd, Room, OneWalk;
    StrayWalk(L, slots, kind, high, w, before);
    var size := SizeOf(L, slots, before);
    if Room(L, kind, size) {
      var ks := Walked(L, slots, kind, high, w, size, high);
      OneWalkStays(L, slots, kind, high, (1 + w) % (high + 1), before + [ks[0]], high - 1, ks[1..],
        WalkEnd(L, slots, kind, high, w, size, high));
    }
  }

  // ---- one heartbeat ----

  /** No walk stands beyond its table, as long as the table has entries in use. */
  ghost predicate OnTable(high: Trio<U32>, walk: Trio<U32>) {
    forall kind :: high.Get(kind) > 0 ==> walk.Get(kind) <= high.Get(kind)
  }

  /** What a heartbeat carries: the queue, then a walk of the sessions, one of the tunnels and one of the bundles. */
  ghost predicate Carries(L: Layout, slots: Trio<seq<Slot>>, high: Trio<U32>, walk: Trio<U32>, walk': Trio<U32>,
      changes: seq<Key>, keys: seq<Key>, ss: seq<Key>, ts: seq<Key>, bs: seq<Key>)
  {
    && keys == changes + ss + ts + bs
    && OneWalk(L, slots, Session, high.session, walk.session, changes, high.session, ss, walk'.session)
    && OneWalk(L, slots, Tunnel, high.tunnel, walk.tunnel, changes + ss, high.tunnel, ts, walk'.tunnel)
    && OneWalk(L, slots, Bundle, high.bundle, walk.bundle, changes + ss + ts, high.bundle, bs, walk'.bundle)
  }

  /** A heartbeat walks all three tables, and the next one goes on where each walk stopped. */
  lemma BeatWalksOn(c: Config, s: NodeState)
    requires 0 <= s.seqno < HB_MAX_SEQ && |s.ring| == HB_HISTORY_SIZE && OnTable(s.highest, s.walk)
    ensures OnTable(s.highest, Beat(c, s).walk)
    ensures exists ss, ts, bs ::
              Carries(c.L, s.tables.slots, s.highest, s.walk, Beat(c, s).walk, s.changes, NextKeys(c, s), ss, ts, bs)
  {
    hide OneWalk, Walked, WalkEnd, SizeOf, Stored, NextPacket, Bump;
    var L, slots, high, walk := c.L, s.tables.slots, s.highest, s.walk;
    var ss := WalkOf(L, slots, high, walk, s.changes, Session);
    var ts := WalkOf(L, slots, high, walk, s.changes + ss, Tunnel);
    var bs := WalkOf(L, slots, high, walk, s.changes + ss + ts, Bundle);
    assert high.session > 0 ==> walk.session <= high.session by { assert high.Get(Session) == high.session; }
    assert high.tunnel > 0 ==> walk.tunnel <= high.tunnel by { assert high.Get(Tunnel) == high.tunnel; }
    assert high.bundle > 0 ==> walk.bundle <= high.bundle by { assert high.Get(Bundle) == high.bundle; }
    WalkIsOne(L, slots, Session, high.session, walk.session, s.changes, high.session);
    WalkIsOne(L, slots, Tunnel, high.tunnel, walk.tunnel, s.changes + ss, high.tunnel);
    WalkIsOne(L, slots, Bundle, high.bundle, walk.bundle, s.changes + ss + ts, high.bundle);
    var walk' := Beat(c, s).walk;
    assert Carries(L, slots, high, walk, walk', s.changes, NextKeys(c, s), ss, ts, bs);
    OneWalkStays(L, slots, Session, high.session, walk.session, s.changes, high.session, ss, walk'.session);
    OneWalkStays(L, slots, Tunnel, high.tunnel, walk.tunnel, s.changes + ss, high.tunnel, ts, walk'.tunnel);
    OneWalkStays(L, slots, Bundle, high.bundle, walk.bundle, s.changes + ss + ts, high.bundle, bs, walk'.bundle);
  }

  lemma OneWalkStays(L: Layout, slots: Trio<seq<Slot>>, kind: Kind, high: U32, w: U32, before: seq<Key>, left: nat,
      ks: seq<Key>, w': U32)
    requires (left > 0 ==> high > 0) && OneWalk(L, slots, kind, high, w, before, left, ks, w')
    ensures high > 0 ==> w' <= high && Passed(w') == (Passed(w) + |ks|) % high
  {
  }

  lemma OneWalkAt(L: Layout, slots: Trio<seq<Slot>>, kind: Kind, high: U32, w: U32, before: seq<Key>, left: nat,
      ks: seq<Key>, w': U32, k: nat)
    requires (left > 0 ==> high > 0) && OneWalk(L, slots, kind, high, w, before, left, ks, w') && k < |ks|
    ensures high > 0 && ks[k] == Key(kind, 1 + (Passed(w) + k) % high)
  {
    hide SizeOf, Room;
  }

  /** A walk takes something as soon as there is room and something to take. */
  lemma OneWalkTakes(L: Layout, slots: Trio<seq<Slot>>, kind: Kind, high: U32, w: U32, before: seq<Key>, left: nat,
      ks: seq<Key>, w': U32)
    requires (left > 0 ==> high > 0) && OneWalk(L, slots, kind, high, w, before, left, ks, w')
    requires left > 0 && Room(L, kind, SizeOf(L, slots, before))
    ensures ks != []
  {
    hide SizeOf, Room;
    assert before + [] == before;
  }

  // ---- who gets in ----

  /** Behind a session walk that had room to begin with there is room for a tunnel and for a bundle, when neither is
      larger than a session less its 8 bytes of heading. */
  lemma SessionsLeaveRoom(L: Layout, slots: Trio<seq<Slot>>, kind: Kind, high: U32, w: U32, before: seq<Key>,
      ks: seq<Key>, w': U32)
    requires Full(L, slots) && OneWalk(L, slots, Session, high, w, before, high, ks, w')
    requires Room(L, Session, SizeOf(L, slots, before)) && kind != Session && L.Size(kind) + 8 <= L.session
    ensures Room(L, kind, SizeOf(L, slots, before + ks))
  {
    hide SizeOf, Full, OneWalk, Encode, ElementOf;
    if ks == [] {
      assert before + ks == before;
    } else {
      var n := |ks| - 1;
      LastTaken(L, slots, Session, high, w, before, ks, w');
      EntrySize(L, slots, ks[n]);
      SizeOfAppend(L, slots, before + ks[..n], ks[n]);
      assert before + ks == before + ks[..n] + [ks[n]];
    }
  }

  /** Tunnels leave room for a bundle behind them when no tunnel costs more than a tunnel is larger than a bundle. */
  lemma TunnelsLeaveRoom(L: Layout, slots: Trio<seq<Slot>>, high: U32, w: U32, before: seq<Key>, ks: seq<Key>, w': U32)
    requires OneWalk(L, slots, Tunnel, high, w, before, high, ks, w') && Room(L, Bundle, SizeOf(L, slots, before))
    requires forall k :: k in ks ==> |Encode(ElementOf(L, slots, k))| + L.bundle <= L.tunnel
    ensures Room(L, Bundle, SizeOf(L, slots, before + ks))
  {
    hide SizeOf, Encode, ElementOf, OneWalk;
    if ks == [] {
      assert before + ks == before;
    } else {
      var n := |ks| - 1;
      LastTaken(L, slots, Tunnel, high, w, before, ks, w');
      SizeOfAppend(L, slots, before + ks[..n], ks[n]);
      assert before + ks == before + ks[..n] + [ks[n]];
    }
  }

  lemma LastTaken(L: Layout, slots: Trio<seq<Slot>>, kind: Kind, high: U32, w: U32, before: seq<Key>, ks: seq<Key>,
      w': U32)
    requires OneWalk(L, slots, kind, high, w, before, high, ks, w') && ks != []
    ensures ks[|ks| - 1].kind == kind && Room(L, kind, SizeOf(L, slots, before + ks[..|ks| - 1]))
  {
    hide SizeOf, Room;
    var n := |ks| - 1;
    assert ks[n] == Key(kind, 1 + (Passed(w) + n) % high);
  }
}
