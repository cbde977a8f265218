/** One node of the cluster: a master that queues changes and sends heartbeats, or a slave that
    applies them. The operations are stated on values here; class `Node` in module `Cluster` is the code. */
module ClusterNode {
  import opened Common
  import opened Heartbeat
  import opened ClusterTables
  import opened ClusterPacket
  import opened ClusterHistory
  import opened Election

  datatype Config = Config(L: Layout, me: Candidate, cluster: U32)

  datatype NodeState = NodeState(
    tables: Tables, highest: Trio<U32>, walk: Trio<U32>, changes: seq<Key>,
    seqno: int, ring: seq<Heart>, version: nat, free: U32, interval: U32, timeout: U32,
    master: bool, masterAddr: U32, lastHb: int, askedSeq: int, askedTime: int)

  // ---- the master ----

  function Bump(version: nat, n: nat): (v: nat)
    ensures v < WORD * WORD
  {
    (version + n) % (WORD * WORD)
  }

  function HeaderOf(c: Config, s: NodeState): Header
    requires 0 <= s.seqno < HB_MAX_SEQ
  {
    var v := Bump(s.version, |s.changes|);
    Header(s.seqno, c.me.basetime, c.cluster, s.highest, s.free,
           Trio(c.L.session % WORD, c.L.bundle % WORD, c.L.tunnel % WORD), s.interval, s.timeout,
           v % WORD, v / WORD)
  }

  /** What the next heartbeat will carry. */
  function NextKeys(c: Config, s: NodeState): seq<Key> {
    Carried(c.L, s.tables.slots, s.highest, s.walk, s.changes)
  }

  function NextPacket(c: Config, s: NodeState): seq<Byte>
    requires 0 <= s.seqno < HB_MAX_SEQ
  {
    Packet(c.L, HeaderOf(c, s), s.tables.slots, NextKeys(c, s))
  }

  /** cluster_heartbeat on a master: the queue is emptied, the walks move on, the packet is kept in
      the ring and the next number is taken. */
  function Beat(c: Config, s: NodeState): (s': NodeState)
    requires 0 <= s.seqno < HB_MAX_SEQ && |s.ring| == HB_HISTORY_SIZE
    ensures 0 <= s'.seqno < HB_MAX_SEQ && |s'.ring| == HB_HISTORY_SIZE
  {
    s.(walk := NextWalks(c.L, s.tables.slots, s.highest, s.walk, s.changes),
       changes := [],
       version := Bump(s.version, |s.changes|),
       ring := Stored(s.ring, s.seqno, NextPacket(c, s)),
       seqno := (s.seqno + 1) % HB_MAX_SEQ)
  }

  /** type_changed: the entry is queued, and a queue that has outgrown MAX_CHANGES is flushed. */
  function Changed(c: Config, s: NodeState, k: Key): (s': NodeState)
    requires 0 <= s.seqno < HB_MAX_SEQ && |s.ring| == HB_HISTORY_SIZE
    ensures 0 <= s'.seqno < HB_MAX_SEQ && |s'.ring| == HB_HISTORY_SIZE
  {
    var q := s.(changes := Requeued(s.changes, k));
    if |q.changes| > c.L.MaxChanges() then Beat(c, q) else q
  }

  /** The packet such a flush sends. */
  function Flushed(c: Config, s: NodeState, k: Key): Option<seq<Byte>>
    requires 0 <= s.seqno < HB_MAX_SEQ
  {
    var q := s.(changes := Requeued(s.changes, k));
    if |q.changes| > c.L.MaxChanges() then Some(NextPacket(c, q)) else None
  }

  // ---- the slave ----

  datatype Reaction =
    | Ignored                   // not for us, malformed or stray
    | Dying                     // another master has the better claim
    | Provoking(resent: CatchUp)
    | Asking(seqno: int)        // LASTSEEN
    | Waiting                   // out of sequence, asked already
    | Done(status: Status)

  /** cluster_process_heartbeat, for a packet `z` from address `from`. */
  function Arrived(c: Config, s: NodeState, z: seq<Byte>, from: U32, now: int, secs: int): (NodeState, Reaction)
    requires |z| >= 8 && |s.ring| == HB_HISTORY_SIZE && -1 <= s.seqno < HB_MAX_SEQ && (s.master ==> s.seqno >= 0)
  {
    if Word(z, 4) != HB_VERSION || |z| > MAX_HEART_SIZE || |z| < 8 + HEADER_SIZE then (s, Ignored)
    else
      var h := DecodeHeader(z);
      if h.cluster != c.cluster then (s, Ignored)
      else if s.master then
        (s, match Duel(Claim(s.version, c.me), Claim(h.versionLow + WORD * h.versionHigh, Candidate(from, h.basetime)))
            case Die => Dying
            case Ignore => Ignored
            case Provoke => Provoking(CaughtUp(s.ring, s.seqno - 1, s.seqno)))
      else Followed(c, s, h, z, from, now, secs)
  }

  /** On a slave: stray masters are ignored, the master is followed, and a heartbeat out of sequence is asked for
      once a second. */
  function Followed(c: Config, s: NodeState, h: Header, z: seq<Byte>, from: U32, now: int, secs: int): (NodeState,
      Reaction)
    requires |z| >= 8 + HEADER_SIZE && |s.ring| == HB_HISTORY_SIZE
  {
    if s.masterAddr != 0 && from != s.masterAddr then (s, Ignored)
    else
      var s1 := s.(seqno := if s.seqno == -1 then h.seqno else s.seqno, lastHb := now);
      if s1.seqno != h.seqno then
        if s1.seqno != s.askedSeq || secs != s.askedTime
        then (s1.(askedSeq := s1.seqno, askedTime := secs), Asking(s1.seqno))
        else (s1, Waiting)
      else InSequence(c, s1, h, z, from)
  }

  /** The expected heartbeat is kept in the ring, and what its header sets is set. */
  function Adopted(s: NodeState, h: Header, z: seq<Byte>): NodeState
    requires |s.ring| == HB_HISTORY_SIZE
  {
    s.(seqno := (h.seqno + 1) % HB_MAX_SEQ, ring := Stored(s.ring, h.seqno, z),
       free := h.free, interval := h.interval, timeout := h.timeout)
  }

  /** The heartbeat is the one expected: it is stored, and its entries are applied in order. */
  function InSequence(c: Config, s: NodeState, h: Header, z: seq<Byte>, from: U32): (NodeState, Reaction)
    requires |z| >= 8 + HEADER_SIZE && |s.ring| == HB_HISTORY_SIZE
  {
    var p := Parse(c.L, z, 8 + HEADER_SIZE);
    var done := p.status == Status.Complete;
    (Adopted(s, h, z).(
       tables := ReceivedAll(Checked(c.L, s.tables, h.highest), p.elements),
       masterAddr := if done then from else s.masterAddr,
       version := if done then h.versionLow + WORD * h.versionHigh else s.version),
     Done(p.status))
  }

  // ---- promotion ----

  /** The highest of the first `n` ids that is in use, or 0. */
  function HighestUsed(t: seq<Slot>, free: Block, n: nat): (h: nat)
    requires n <= |t|
    ensures h < n || h == 0
    ensures forall i :: h < i < n ==> t[i] == Defined(free)
    ensures h > 0 ==> t[h] != Defined(free)
  {
    if n == 0 then 0 else if t[n - 1] != Defined(free) then n - 1 else HighestUsed(t, free, n - 1)
  }

  /** The highest id in use; a table has fewer than 2^32 entries. */
  function Top(t: seq<Slot>, free: Block): (h: U32)
    ensures h < |t| || h == 0
  {
    HighestUsed(t, free, if |t| < WORD then |t| else WORD)
  }

  function Freed(t: seq<Slot>, free: Block): (r: seq<Slot>)
    ensures |r| == |t| && forall i :: 0 <= i < |t| ==> r[i] == if t[i].Undefined? then Defined(free) else t[i]
  {
    seq(|t|, i requires 0 <= i < |t| => if t[i].Undefined? then Defined(free) else t[i])
  }

  function Completed(L: Layout, slots: Trio<seq<Slot>>): Trio<seq<Slot>> {
    Trio(Freed(slots.session, Free(L, Session)), Freed(slots.bundle, Free(L, Bundle)),
      Freed(slots.tunnel, Free(L, Tunnel)))
  }

  function Tops(L: Layout, slots: Trio<seq<Slot>>): Trio<U32> {
    Trio(Top(slots.session, Free(L, Session)), Top(slots.bundle, Free(L, Bundle)), Top(slots.tunnel, Free(L, Tunnel)))
  }

  /** On a promoted node every entry is defined. */
  lemma CompletedIsFull(L: Layout, slots: Trio<seq<Slot>>)
    requires forall kind, i :: 0 <= i < |slots.Get(kind)| && slots.Get(kind)[i].Defined? ==>
             |slots.Get(kind)[i].block| == L.Size(kind)
    ensures Full(L, Completed(L, slots))
  {
    hide Freed, Free;
    var t := Completed(L, slots);
    forall kind, i | 0 <= i < |t.Get(kind)|
      ensures t.Get(kind)[i].Defined? && |t.Get(kind)[i].block| == L.Size(kind)
    {
      assert t.Get(kind)[i] == if slots.Get(kind)[i].Undefined? then Defined(Free(L, kind)) else slots.Get(kind)[i];
    }
  }

  /** The part of cluster_check_master that makes a slave the master: what is still undefined becomes
      free, the highest ids in use are found, and the ring and the next number are kept. */
  function Promoted(c: Config, s: NodeState): NodeState
  {
    var slots := Completed(c.L, s.tables.slots);
    s.(tables := Tables(slots, Trio(0, 0, 0), true),
       highest := Tops(c.L, slots),
       master := true,
       seqno := if s.seqno == -1 then 0 else s.seqno)
  }
}
