/** What the header of a heartbeat tells: the table version counts the changes ever sent, and a slave takes it over
    with the master's settings. */
module ReplicationHeader {
  import opened Common
  import opened Heartbeat
  import opened ClusterTables
  import opened ClusterPacket
  import opened ClusterHistory
  import opened ClusterNode
  import opened Replication

  /** How many changes heartbeats `a` to before `b` carried. */
  function ChangesSent(log: seq<Sent>, a: nat, b: nat): nat
    requires b <= |log|
    decreases b
  {
    if b <= a then 0 else ChangesSent(log, a, b - 1) + |log[b - 1].changes|
  }

  const VERSIONS := 0x1_0000_0000_0000_0000

  function VersionIn(h: Header): nat { (h.versionLow as int) + 0x1_0000_0000 * (h.versionHigh as int) }

  lemma {:induction false} SentLater(log: seq<Sent>, log': seq<Sent>, a: nat, b: nat)
    requires b <= |log| && log <= log'
    ensures ChangesSent(log', a, b) == ChangesSent(log, a, b)
    decreases b
  {
    if b > a {
      SentLater(log, log', a, b - 1);
      assert log'[b - 1] == log[b - 1];
    }
  }

  /** The settings a header passes on. */
  ghost predicate SameSettings(h: Header, m: NodeState) {
    h.free == m.free && h.interval == m.interval && h.timeout == m.timeout
  }

  /** Version `v` was current when the log was empty. */
  ghost predicate Counts(w: World, v: nat) {
    && w.m.version == (v + ChangesSent(w.log, w.base, |w.log|)) % VERSIONS
    && (forall n :: w.base <= n < |w.log| ==>
          && VersionIn(w.log[n].header) == (v + ChangesSent(w.log, w.base, n + 1)) % VERSIONS
          && SameSettings(w.log[n].header, w.m) && w.log[n].header.basetime == w.c.me.basetime)
    && (w.s.seqno != -1 ==>
          && w.base < w.next <= |w.log| && w.s.version == VersionIn(w.log[w.next - 1].header)
          && SameSettings(w.log[w.next - 1].header, w.s) && w.s.masterAddr == w.c.me.addr)
  }

  lemma Modulo(v: nat, a: nat, b: nat)
    ensures ((v + a) % VERSIONS + b) % VERSIONS == (v + (a + b)) % VERSIONS
  {
    var x := v + a;
    assert x == x / VERSIONS * VERSIONS + x % VERSIONS;
    var y := x % VERSIONS + b;
    assert y == y / VERSIONS * VERSIONS + y % VERSIONS;
    ModUnique(x + b, VERSIONS, x / VERSIONS + y / VERSIONS, y % VERSIONS);
  }

  lemma HeaderVersion(c: Config, m: NodeState)
    requires 0 <= m.seqno < HB_MAX_SEQ
    ensures var h := HeaderOf(c, m);
            && VersionIn(h) == (m.version + |m.changes|) % VERSIONS && SameSettings(h, m)
            && h.seqno == m.seqno && h.basetime == c.me.basetime && h.cluster == c.cluster && h.highest == m.highest
  {
  }

  lemma BeatVersion(c: Config, m: NodeState)
    requires Steady(m) && m.seqno >= 0
    ensures Beat(c, m).version == (m.version + |m.changes|) % VERSIONS
    ensures Beat(c, m).free == m.free && Beat(c, m).interval == m.interval && Beat(c, m).timeout == m.timeout
  {
    hide NextWalks, NextPacket, Stored;
  }

  lemma BeatCounts(w: World, m: NodeState, v: nat)
    requires Counts(w, v) && Steady(m) && m.seqno >= 0 && w.base <= |w.log|
    requires m.version == w.m.version && m.free == w.m.free && m.interval == w.m.interval && m.timeout == w.m.timeout
    ensures Counts(BeatStep(w, m), v)
  {
    hide HeaderOf, Beat, NextKeys, NextPacket, VersionIn;
    var w', n := BeatStep(w, m), |w.log|;
    HeaderVersion(w.c, m);
    BeatVersion(w.c, m);
    SentLater(w.log, w'.log, w.base, n);
    Modulo(v, ChangesSent(w.log, w.base, n), |m.changes|);
    forall j | w.base <= j < n
      ensures w'.log[j] == w.log[j] && ChangesSent(w'.log, w.base, j + 1) == ChangesSent(w.log, w.base, j + 1)
    {
      SentLater(w.log, w'.log, w.base, j + 1);
    }
  }

  /** A heartbeat in sequence: its version, its settings and its sender are the slave's from then on. */
  lemma AcceptAdopts(w: World, n: nat, now: int, secs: int)
    requires Inv(w) && Enabled(w, Deliver(n, now, secs))
    ensures var e, s, w' := w.log[n], w.s, Next(w, Deliver(n, now, secs));
            if w.s.seqno == -1 || n == w.next
            then
              && w'.next == n + 1 && w'.s.seqno != -1 && w'.s.version == VersionIn(e.header)
              && SameSettings(e.header, w'.s) && w'.s.masterAddr == w.c.me.addr
            else
              && w'.next == w.next && w'.s.seqno == s.seqno && w'.s.version == s.version && w'.s.free == s.free
              && w'.s.interval == s.interval && w'.s.timeout == s.timeout && w'.s.masterAddr == s.masterAddr
  {
    hide AgreesExcept, ReceivedAll, Checked, Parse, Full, FreeBeyond, Stored, Number, Arrived, Unknown, Holds,
         DiffersOnly, Packet, Counted;
    var e := w.log[n];
    DeliverIs(w, n, now, secs);
    if w.s.seqno == -1 || n == w.next {
      InDoubt(w, n);
      assert Genuine(w.c, e, n);
      PacketRoundTrip(w.c.L, e.header, e.slots, e.keys);
      var s1 := w.s.(seqno := if w.s.seqno == -1 then Number(n) else w.s.seqno, lastHb := now);
      GenuineApplies(w.c, s1, e, n, w.c.me.addr);
    } else {
      GapIsAsked(w, n, now, secs);
    }
  }

  /** A heartbeat out of sequence changes nothing but the time it came: the slave asks for the one it expects, once a
      second. */
  lemma GapIsAsked(w: World, n: nat, now: int, secs: int)
    requires Inv(w) && Enabled(w, Deliver(n, now, secs)) && w.s.seqno != -1 && n != w.next
    ensures var s, (s', r) := w.s, Arrived(w.sc, w.s, w.log[n].packet, w.c.me.addr, now, secs);
            if s.askedSeq == Number(w.next) && s.askedTime == secs
            then s' == s.(lastHb := now) && r == Waiting
            else s' == s.(lastHb := now, askedSeq := Number(w.next), askedTime := secs) && r == Asking(Number(w.next))
  {
    hide AgreesExcept, ReceivedAll, Checked, Parse, Full, FreeBeyond, Stored, Word, DecodeHeader, Number,
         Holds, Packets, Unknown, Sending, Packet, InSequence, DiffersOnly, Counted;
    var e := w.log[n];
    assert Genuine(w.c, e, n);
    PacketRoundTrip(w.c.L, e.header, e.slots, e.keys);
    if Number(n) == w.s.seqno { Expected(w, n); }
  }

  // ---- over whole runs ----

  lemma NextCounts(w: World, mv: Move, v: nat)
    requires Inv(w) && Enabled(w, mv) && Counts(w, v)
    ensures Counts(Next(w, mv), v)
  {
    hide Counts, LogInv, SlaveInv, Beat, SentBy, Arrived, Written, Requeued, Full, FreeBeyond, Holds, DiffersOnly;
    match mv {
      case Write(k, block) =>
        var m := Written(w.m, k, block);
        var q := m.(changes := Requeued(m.changes, k));
        WrittenKeeps(w.m, k, block);
        if |q.changes| > w.c.L.MaxChanges() { BeatCounts(w, q, v); } else { WriteCounts(w, q, v); }
      case Timer => BeatCounts(w, w.m, v);
      case Deliver(n, now, secs) => DeliverCounts(w, n, now, secs, v);
    }
  }

  lemma WrittenKeeps(m: NodeState, k: Key, block: Block)
    requires k.id < |m.tables.slots.Get(k.kind)|
    ensures var m' := Written(m, k, block);
            && m'.version == m.version && m'.free == m.free && m'.interval == m.interval && m'.timeout == m.timeout
            && m'.seqno == m.seqno && m'.ring == m.ring && m'.master == m.master
  {
  }

  lemma WriteCounts(w: World, q: NodeState, v: nat)
    requires Counts(w, v)
    requires q.version == w.m.version && q.free == w.m.free && q.interval == w.m.interval && q.timeout == w.m.timeout
    ensures Counts(w.(m := q), v)
  {
    hide VersionIn;
  }

  lemma DeliverCounts(w: World, n: nat, now: int, secs: int, v: nat)
    requires Inv(w) && Enabled(w, Deliver(n, now, secs)) && Counts(w, v)
    ensures Counts(Next(w, Deliver(n, now, secs)), v)
  {
    hide Inv, Arrived, VersionIn, ChangesSent;
    AcceptAdopts(w, n, now, secs);
  }

  lemma {:induction false} RunCounts(w: World, moves: seq<Move>, v: nat)
    requires Inv(w) && IsRun(w, moves) && Counts(w, v)
    ensures Counts(After(w, moves), v)
    decreases |moves|
  {
    hide Inv, Counts, Enabled, Next;
    if moves != [] {
      NextKeepsInv(w, moves[0]);
      NextCounts(w, moves[0], v);
      RunCounts(Next(w, moves[0]), moves[1..], v);
    }
  }

  /** Over every run the master's table version is that of the start and as many more as changes have been sent, modulo
      2^64, and a slave has that of the last heartbeat it applied, with the settings that one carried. */
  lemma VersionCountsChanges(w0: World, moves: seq<Move>)
    requires Replication.Initial(w0) && IsRun(w0, moves) && w0.m.version < VERSIONS
    ensures var w := After(w0, moves);
            && w.m.version == (w0.m.version + ChangesSent(w.log, w.base, |w.log|)) % VERSIONS
            && (w.s.seqno != -1 ==>
                  && w.base < w.next <= |w.log|
                  && w.s.version == (w0.m.version + ChangesSent(w.log, w.base, w.next)) % VERSIONS
                  && SameSettings(w.log[w.next - 1].header, w.m) && SameSettings(w.log[w.next - 1].header, w.s)
                  && w.s.masterAddr == w.c.me.addr)
  {
    hide Inv, Replication.Initial, IsRun, After, SameSettings, ChangesSent;
    StartCounts(w0);
    InitialInv(w0);
    RunCounts(w0, moves, w0.m.version);
  }

  lemma StartCounts(w: World)
    requires Replication.Initial(w) && w.m.version < VERSIONS
    ensures Counts(w, w.m.version)
  {
    hide Full, FreeBeyond, Unknown, ClusterTables.Initial;
  }
}
