/** What a node does with what it is handed: packets that are not for it, another master's heartbeat, a broken
    heartbeat, a changed entry. */
module ClusterAnswers {
  import opened Common
  import opened Heartbeat
  import opened ClusterTables
  import opened ClusterPacket
  import opened ClusterHistory
  import opened ClusterNode
  import opened Election
  import opened Replication

  /** A heartbeat of version 9 and of a possible size, for the cluster. Its header starts at byte 8. */
  predicate ForUs(c: Config, z: seq<Byte>)
    requires |z| >= 8
  {
    Word(z, 4) == 9 && 144 <= |z| <= 8192 && Word(z, 20) == c.cluster
  }

  function VersionOf(z: seq<Byte>): nat
    requires |z| >= 144
  {
    (Word(z, 64) as int) + 0x1_0000_0000 * (Word(z, 68) as int)
  }

  /** Nothing else is even looked at. */
  lemma ForeignIsIgnored(c: Config, s: NodeState, z: seq<Byte>, from: U32, now: int, secs: int)
    requires Steady(s) && |z| >= 8 && !ForUs(c, z)
    ensures Arrived(c, s, z, from, now, secs) == (s, Ignored)
  {
    hide Word, Followed, CaughtUp;
  }

  /** A slave that has a master does not listen to another. */
  lemma StrayIsIgnored(c: Config, s: NodeState, z: seq<Byte>, from: U32, now: int, secs: int)
    requires Steady(s) && |z| >= 8 && !s.master && s.masterAddr != 0 && from != s.masterAddr
    ensures Arrived(c, s, z, from, now, secs) == (s, Ignored)
  {
    hide Word, InSequence;
  }

  /** A master that hears another's heartbeat stays as it is, or dies when the other has newer tables, or as new ones
      and is older, or is as old with a higher address. When all is the same and the address is not higher, it sends
      its own last heartbeat again, to make the other one give way. */
  lemma MasterAnswers(c: Config, s: NodeState, z: seq<Byte>, from: U32, now: int, secs: int)
    requires Steady(s) && s.master && |z| >= 8 && ForUs(c, z)
    ensures var (s', r) := Arrived(c, s, z, from, now, secs);
            var version, basetime := VersionOf(z), Word(z, 16);
            && s' == s
            && (r == Dying <==>
                  basetime != 0 &&
                  (version > s.version ||
                   (version == s.version &&
                    (basetime < c.me.basetime || (basetime == c.me.basetime && from > c.me.addr)))))
            && (r == Provoking(CaughtUp(s.ring, s.seqno - 1, s.seqno)) <==>
                  basetime != 0 && version == s.version && basetime == c.me.basetime && from <= c.me.addr)
            && (r != Dying && r != Provoking(CaughtUp(s.ring, s.seqno - 1, s.seqno)) ==> r == Ignored)
  {
    hide Word, Followed, CaughtUp, Duel;
    DuelIs(Claim(s.version, c.me), Claim(VersionOf(z), Candidate(from, Word(z, 16))));
  }

  /** A heartbeat is kept, its header counts and what can be read of it is applied; but only a whole one makes its
      sender the master and its version the slave's. */
  ghost predicate TakesIn(c: Config, s: NodeState, z: seq<Byte>, from: U32, now: int, s': NodeState, status: Status)
    requires |z| >= 144 && |s.ring| == 64
  {
    var p, seqno := Parse(c.L, z, 144), Word(z, 12);
    && status == p.status
    && s'.tables == ReceivedAll(Checked(c.L, s.tables, Trio(Word(z, 24), Word(z, 32), Word(z, 36))), p.elements)
    && s'.ring == s.ring[seqno % 64 := Heart(seqno, z)] && s'.seqno == (seqno + 1) % 0x4000_0000 && s'.lastHb == now
    && s'.free == Word(z, 28) && s'.interval == Word(z, 52) && s'.timeout == Word(z, 56)
    && s'.masterAddr == (if p.status == Status.Complete then from else s.masterAddr)
    && s'.version == (if p.status == Status.Complete then VersionOf(z) else s.version)
    && s'.changes == s.changes && s'.walk == s.walk && s'.highest == s.highest && !s'.master
    && s'.askedSeq == s.askedSeq && s'.askedTime == s.askedTime
  }

  /** That is what happens to the heartbeat expected, or the first one, however broken. */
  lemma InTurn(c: Config, s: NodeState, z: seq<Byte>, from: U32, now: int, secs: int)
    requires Steady(s) && !s.master && |z| >= 8 && ForUs(c, z) && (s.masterAddr == 0 || from == s.masterAddr)
    requires s.seqno == -1 || s.seqno == Word(z, 12)
    ensures var (s', r) := Arrived(c, s, z, from, now, secs); r.Done? && TakesIn(c, s, z, from, now, s', r.status)
  {
    hide Word, Parse, ReceivedAll, Checked;
  }

  /** Any other one only shows that the master is alive; the one expected is asked for, once a second. */
  lemma OutOfTurn(c: Config, s: NodeState, z: seq<Byte>, from: U32, now: int, secs: int)
    requires Steady(s) && !s.master && |z| >= 8 && ForUs(c, z) && (s.masterAddr == 0 || from == s.masterAddr)
    requires s.seqno != -1 && s.seqno != Word(z, 12)
    ensures Arrived(c, s, z, from, now, secs) ==
            if s.askedSeq == s.seqno && s.askedTime == secs then (s.(lastHb := now), Waiting)
            else (s.(lastHb := now, askedSeq := s.seqno, askedTime := secs), Asking(s.seqno))
  {
    hide Word, InSequence;
  }

  /** Checking frees an entry if and only if it is undefined, beyond the ids in use and not entry 0, on a node that is
      not up to date and misses, of some table, at least as many entries as its highest id. */
  lemma CheckFreesIff(L: Layout, t: Tables, high: Trio<int>, kind: Kind, i: nat)
    requires i < |t.slots.Get(kind)|
    ensures var t' := Checked(L, t, high);
            && |t'.slots.Get(kind)| == |t.slots.Get(kind)|
            && (t'.slots.Get(kind)[i] != t.slots.Get(kind)[i] <==>
                  && !t.uptodate && t.slots.Get(kind)[i].Undefined? && i > high.Get(kind) && i > 0
                  && !forall k: Kind :: high.Get(k) > t.undefined.Get(k))
            && (t'.slots.Get(kind)[i] != t.slots.Get(kind)[i] ==> t'.slots.Get(kind)[i] == Defined(Free(L, kind)))
  {
    hide Undefs, Free;
    assert (forall k: Kind :: high.Get(k) > t.undefined.Get(k)) <==>
           high.Get(Session) > t.undefined.Get(Session) && high.Get(Bundle) > t.undefined.Get(Bundle) &&
           high.Get(Tunnel) > t.undefined.Get(Tunnel);
  }

  /** A changed entry is queued, behind what is; the queue is sent at once if and only if it has then become longer
      than 8192 / (S + 4) - 2, where a session has S bytes. */
  lemma FlushIff(c: Config, s: NodeState, k: Key)
    requires Steady(s) && s.seqno >= 0 && Distinct(s.changes)
    ensures var q := Without(s.changes, k) + [k];
            var s' := Changed(c, s, k);
            if |q| > 8192 / (c.L.session + 4) - 2
            then
              && Flushed(c, s, k) == Some(NextPacket(c, s.(changes := q))) && s'.changes == []
              && s'.seqno == (s.seqno + 1) % 0x4000_0000
              && s'.ring == s.ring[s.seqno % 64 := Heart(s.seqno, NextPacket(c, s.(changes := q)))]
            else Flushed(c, s, k) == None && s' == s.(changes := q)
  {
    hide NextPacket, NextWalks, Bump, Requeued, Without;
    RequeuedDistinct(s.changes, k);
  }

  /** So it is in the runs of the model. */
  lemma WriteFlushesIff(w: World, k: Key, block: Block)
    requires Enabled(w, Write(k, block)) && Distinct(w.m.changes)
    ensures var w' := Next(w, Write(k, block));
            var q := Without(w.m.changes, k) + [k];
            if |q| > 8192 / (w.c.L.session + 4) - 2
            then |w'.log| == |w.log| + 1 && w'.log[|w.log|].changes == q && w'.m.changes == []
            else w'.log == w.log && w'.m.changes == q
  {
    hide Beat, Requeued, Without, SentBy;
    RequeuedDistinct(w.m.changes, k);
    if |Requeued(w.m.changes, k)| > w.c.L.MaxChanges() {
      SentChanges(w.c, Written(w.m, k, block).(changes := Requeued(w.m.changes, k)));
    }
  }

  lemma SentChanges(c: Config, m: NodeState)
    requires Steady(m) && m.seqno >= 0
    ensures SentBy(c, m).changes == m.changes && Beat(c, m).changes == []
  {
    hide NextWalks, NextPacket, Bump, NextKeys, HeaderOf;
  }

  /** A node that takes over knows everything: what it had not been told of is free, all zero. The highest id of each
      table is the last one in use, and the numbering goes on where the old master's ended, or starts at 0. */
  lemma TakesOver(c: Config, s: NodeState, kind: Kind)
    requires |s.tables.slots.Get(kind)| <= 0x1_0000_0000
    ensures var p := Promoted(c, s); var t, t' := s.tables.slots.Get(kind), p.tables.slots.Get(kind);
            && p.master && p.tables.uptodate && p.tables.undefined.Get(kind) == 0
            && p.seqno == (if s.seqno == -1 then 0 else s.seqno)
            && p.ring == s.ring && p.changes == s.changes && p.walk == s.walk && p.version == s.version
            && p.free == s.free && p.interval == s.interval && p.timeout == s.timeout
            && |t'| == |t|
            && (forall i :: 0 <= i < |t| ==> t'[i] == if t[i].Undefined? then Defined(Zeros(c.L.Size(kind))) else t[i])
            && (forall i :: p.highest.Get(kind) < i < |t| ==> t'[i] == Defined(Zeros(c.L.Size(kind))))
            && (p.highest.Get(kind) > 0 ==>
                  p.highest.Get(kind) < |t| && t'[p.highest.Get(kind)] != Defined(Zeros(c.L.Size(kind))))
  {
    hide Free;
    FreeIsZero(c.L, kind);
    var p := Promoted(c, s);
    var t' := p.tables.slots.Get(kind);
    forall i | p.highest.Get(kind) < i < |t'|
      ensures t'[i] == Defined(Free(c.L, kind))
    {
      TopIs(t', Free(c.L, kind), i);
    }
  }

  lemma FreeIsZero(L: Layout, kind: Kind)
    ensures Free(L, kind) == Zeros(L.Size(kind))
  {
  }
}
