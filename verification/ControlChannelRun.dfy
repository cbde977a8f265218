/** Two tunnel ends joined by a network that loses, duplicates and reorders packets.
    The ends run the 16-bit steps of `ControlChannel`; what has been queued, accepted and
    acknowledged is recorded beside them in unbounded numbers, which no step looks at. */
module ControlChannelRun {
  import opened Common
  import opened ControlChannel

  /** One end with its history: every message queued and accepted so far, how many queued
      messages an acknowledgement has removed, and which have left at least once. */
  datatype Side = Side(
    t: TunnelState, alive: bool, queued: seq<Message>, acked: nat, accepted: seq<Message>, left: set<nat>)

  /** A packet in flight, tagged with the unbounded numbers its two counters stand for. */
  datatype Packet = Packet(wire: Wire, ns: nat, nr: nat)

  datatype World = World(a: Side, b: Side, toA: seq<Packet>, toB: seq<Packet>)

  datatype Action =
    | Queue(body: Message)    // controladd
    | Null                    // controlnull, as the application calls it
    | Timeout                 // the resend check of regular_cleanups
    | Arrive(p: Packet)       // processudp

  function End(w: World, atA: bool): Side { if atA then w.a else w.b }

  /** What may still arrive at an end. */
  function Flight(w: World, atA: bool): seq<Packet> { if atA then w.toA else w.toB }

  function Apply(t: TunnelState, act: Action, now: int): (o: Outcome)
    ensures o.first + o.count <= |o.next.controls|
  {
    match act
    case Queue(body) => AddStep(t, body, now)
    case Null => NullStep(t, now)
    case Timeout => TimeoutStep(t, now)
    case Arrive(p) => ReceiveStep(t, p.wire, now)
  }

  function Range(lo: nat, hi: nat): (r: set<nat>)
    ensures forall i: nat :: i in r <==> lo <= i < hi
    decreases hi
  {
    if lo >= hi then {} else Range(lo, hi - 1) + {hi - 1}
  }

  /** The history after an operation with outcome `o`; a killed tunnel has no window. */
  function Record(s: Side, act: Action, o: Outcome): Side {
    var acked := s.acked + o.popped;
    Side(o.next, o.next.window > 0,
         if act.Queue? then s.queued + [act.body] else s.queued,
         acked,
         if o.delivered.Some? then s.accepted + [o.delivered.value] else s.accepted,
         s.left + Range(acked + o.first, acked + o.first + o.count))
  }

  /** Consecutive packets, the first standing for message `ns`, all quoting `nr`. */
  function Tagged(ws: seq<Wire>, ns: nat, nr: nat): (ps: seq<Packet>)
    ensures |ps| == |ws| && forall i :: 0 <= i < |ps| ==> ps[i] == Packet(ws[i], ns + i, nr)
  {
    seq(|ws|, i requires 0 <= i < |ws| => Packet(ws[i], ns + i, nr))
  }

  /** What an operation puts on the wire: a zero length block stands for the number after the last
      queued message, a queued message for its own place in the history. */
  function Sent(s': Side, o: Outcome): seq<Packet>
    requires o.first + o.count <= |o.next.controls|
  {
    Tagged(Transmissions(o), if o.zlb then |s'.queued| else s'.acked + o.first, |s'.accepted|)
  }

  /** What the network and the callers promise: fewer than 2^15 messages wait at once, and no
      packet arrives that is 2^15 numbers or more behind the receiving end's counters. */
  predicate Allowed(s: Side, act: Action, arriving: seq<Packet>) {
    s.alive &&
    match act
    case Queue(_) => |s.t.controls| < SEQ_MOD / 2
    case Arrive(p) => p in arriving && |s.accepted| - p.ns < SEQ_MOD / 2 && s.acked - p.nr < SEQ_MOD / 2
    case _ => true
  }

  /** The clock is never negative. */
  datatype Move = Move(atA: bool, act: Action, now: nat)

  predicate Enabled(w: World, m: Move) {
    if m.atA then Allowed(w.a, m.act, w.toA) else Allowed(w.b, m.act, w.toB)
  }

  /** Packets stay in the network once sent: any of them may arrive again, late, or never. */
  function Next(w: World, m: Move): World {
    if m.atA then
      var o := Apply(w.a.t, m.act, m.now);
      var a := Record(w.a, m.act, o);
      World(a, w.b, w.toA, w.toB + Sent(a, o))
    else
      var o := Apply(w.b.t, m.act, m.now);
      var b := Record(w.b, m.act, o);
      World(w.a, b, w.toA + Sent(b, o), w.toB)
  }

  predicate Fresh(s: Side) {
    s.alive && s.t.ns == s.t.nr == 0 && s.t.controls == [] && s.t.window > 0 &&
    s.queued == [] && s.acked == 0 && s.accepted == [] && s.left == {}
  }

  predicate Initial(w: World) { Fresh(w.a) && Fresh(w.b) && w.toA == [] && w.toB == [] }

  predicate IsRun(w: World, moves: seq<Move>)
    decreases moves
  {
    moves == [] || (Enabled(w, moves[0]) && IsRun(Next(w, moves[0]), moves[1..]))
  }

  function After(w: World, moves: seq<Move>): World
    decreases moves
  {
    if moves == [] then w else After(Next(w, moves[0]), moves[1..])
  }

  // ---- the invariant ----

  /** The 16-bit state is the history seen mod 2^16, and the messages still queued that have left
      at least once are exactly the first min(controlc, window). */
  ghost predicate Coherent(s: Side) {
    && s.acked + |s.t.controls| == |s.queued|
    && |s.t.controls| <= SEQ_MOD / 2
    && s.t.ns == Mod16(|s.queued|) && s.t.nr == Mod16(|s.accepted|)
    && s.t.window > 0 && (s.t.controls != [] ==> s.t.retry > 0)
    && (forall k {:trigger s.t.controls[k]} :: 0 <= k < |s.t.controls| ==>
          s.t.controls[k] == Control(Mod16(s.acked + k), s.queued[s.acked + k]))
    && (forall i :: i in s.left ==> i < |s.queued|)
    && (forall i :: s.acked <= i < |s.queued| ==> (i in s.left <==> i < s.acked + s.t.window))
  }

  /** What `to` has accepted is a prefix of what `from` queued and has transmitted, and nothing left `from`'s
      queue before. */
  ghost predicate Delivered(from: Side, to: Side) {
    from.acked <= |to.accepted| && to.accepted <= from.queued && forall i :: 0 <= i < |to.accepted| ==> i in from.left
  }

  ghost predicate Honest(p: Packet, from: Side) {
    && p.wire.ns == Mod16(p.ns) && p.wire.nr == Mod16(p.nr)
    && p.nr <= |from.accepted|
    && p.ns <= |from.queued|
    && (p.wire.body.None? ==> p.ns <= from.acked)
    && (p.wire.body.Some? ==> p.ns < |from.queued| && p.wire.body.value == from.queued[p.ns] && p.ns in from.left)
  }

  ghost predicate Inv(w: World) {
    && (w.a.alive ==> Coherent(w.a)) && (w.b.alive ==> Coherent(w.b))
    && Delivered(w.a, w.b) && Delivered(w.b, w.a)
    && |w.a.queued| - w.a.acked <= SEQ_MOD / 2 && |w.b.queued| - w.b.acked <= SEQ_MOD / 2
    && (forall p :: p in w.toB ==> Honest(p, w.a))
    && (forall p :: p in w.toA ==> Honest(p, w.b))
  }

  // ---- one step ----

  /** Numbers less than 2^16 apart that agree mod 2^16 are equal. */
  lemma Unwrap(x: int, y: int)
    requires Mod16(x) == Mod16(y) && -SEQ_MOD < x - y < SEQ_MOD
    ensures x == y
  {
    var q, r := x / SEQ_MOD, y / SEQ_MOD;
    assert x - y == SEQ_MOD * (q - r);
  }

  lemma Counted(q: nat, n: nat, k: nat)
    ensures Mod16(q - n + k) == Mod16(Mod16(q) - n + k)
  {
    assert Mod16(q) - n + k == q - n + k - SEQ_MOD * (q / SEQ_MOD);
  }

  lemma Ahead(nr: nat, q: nat, n: nat)
    ensures Mod16(Mod16(nr) - (Mod16(q) - n)) == Mod16(nr - (q - n))
  {
    assert Mod16(nr) - (Mod16(q) - n) == nr - (q - n) + SEQ_MOD * (q / SEQ_MOD - nr / SEQ_MOD);
  }

  /** On a coherent side an acknowledgement that is not 2^15 behind removes exactly the messages
      the peer had accepted when it sent it. */
  lemma AcknowledgedIsExact(s: Side, nr: nat)
    requires Coherent(s) && nr <= |s.queued| && s.acked - nr < SEQ_MOD / 2
    ensures Acknowledged(s.t, Mod16(nr)) == if nr > s.acked then nr - s.acked else 0
  {
    Ahead(nr, |s.queued|, |s.t.controls|);
  }

  lemma NextNumber(x: int)
    ensures Mod16(Mod16(x) + 1) == Mod16(x + 1)
  {
  }

  lemma QueueKeeps(s: Side, body: Message, now: nat)
    requires Coherent(s) && |s.t.controls| < SEQ_MOD / 2
    ensures Coherent(Record(s, Queue(body), AddStep(s.t, body, now)))
  {
    hide Mod16;
    NextNumber(|s.queued|);
    var s' := Record(s, Queue(body), AddStep(s.t, body, now));
    assert s'.queued[..|s.queued|] == s.queued;
  }

  /** When `k` messages are acknowledged, the window moves on by as many, and what it now holds has left. */
  lemma WindowMoves(s: Side, k: nat, left: set<nat>)
    requires Coherent(s) && k <= |s.t.controls|
    requires var n, w := |s.t.controls| - k, s.t.window;
             var from := s.acked + k + Min(if k <= w then w - k else 0, n);
             left == s.left + Range(from, s.acked + k + Min(w, n))
    ensures forall i :: i in left ==> i < |s.queued|
    ensures forall i :: s.acked + k <= i < |s.queued| ==> (i in left <==> i < s.acked + k + s.t.window)
  {
    hide Mod16, Range;
  }

  lemma ArriveKeeps(s: Side, p: Packet, now: nat)
    requires Coherent(s) && p.nr <= |s.queued| && s.acked - p.nr < SEQ_MOD / 2
    requires p.wire.nr == Mod16(p.nr)
    ensures Coherent(Record(s, Arrive(p), ReceiveStep(s.t, p.wire, now)))
  {
    hide Mod16, Acknowledged, Range;
    AcknowledgedIsExact(s, p.nr);
    NextNumber(|s.accepted|);
    if p.wire.ns == s.t.nr {
      WindowMoves(s, Acknowledged(s.t, p.wire.nr), Record(s, Arrive(p), ReceiveStep(s.t, p.wire, now)).left);
    } else {
      NothingLeaves(s.acked);
    }
  }

  lemma NothingLeaves(i: nat)
    ensures Range(i, i) == {}
  {
  }

  lemma QueuedIsHonest(s: Side, k: nat)
    requires Coherent(s) && k < |s.t.controls| && s.acked + k in s.left
    ensures Honest(Packet(Wire(s.t.controls[k].ns, s.t.nr, Some(s.t.controls[k].body)), s.acked + k, |s.accepted|), s)
  {
  }

  lemma NullIsHonest(s: Side)
    requires Coherent(s) && s.t.controls == []
    ensures Honest(Packet(Wire(s.t.ns, s.t.nr, None), |s.queued|, |s.accepted|), s)
  {
  }

  /** Whatever a coherent side sends is tagged truthfully. */
  lemma SentIsHonest(s: Side, o: Outcome, i: nat)
    requires Coherent(s) && s.t == o.next && o.first + o.count <= |o.next.controls|
    requires o.zlb ==> o.count == 0 && s.t.controls == []
    requires Range(s.acked + o.first, s.acked + o.first + o.count) <= s.left && i < |Sent(s, o)|
    ensures Honest(Sent(s, o)[i], s)
  {
    hide Mod16, Coherent, Honest, Acknowledged;
    if o.zlb {
      NullIsHonest(s);
    } else {
      QueuedIsHonest(s, o.first + i);
    }
  }

  /** A message is taken only when it is the very next one the peer queued. */
  lemma TakenInOrder(s: Side, peer: Side, p: Packet)
    requires s.t.nr == Mod16(|s.accepted|) && p.wire.ns == s.t.nr && p.wire.body.Some?
    requires Delivered(peer, s) && |peer.queued| - peer.acked <= SEQ_MOD / 2 && Honest(p, peer)
    requires |s.accepted| - p.ns < SEQ_MOD / 2
    ensures s.accepted + [p.wire.body.value] <= peer.queued && |s.accepted| in peer.left
  {
    Unwrap(p.ns, |s.accepted|);
  }

  lemma CoherentIs(s: Side)
    requires Coherent(s)
    ensures s.acked + |s.t.controls| == |s.queued| && |s.t.controls| <= SEQ_MOD / 2
    ensures s.t.ns == Mod16(|s.queued|) && s.t.nr == Mod16(|s.accepted|) && s.t.window > 0
  {
  }

  lemma StepIsCoherent(s: Side, peer: Side, arriving: seq<Packet>, act: Action, now: nat)
    requires Allowed(s, act, arriving) && Coherent(s) && Delivered(peer, s) && Delivered(s, peer)
    requires forall p :: p in arriving ==> Honest(p, peer)
    ensures var s' := Record(s, act, Apply(s.t, act, now)); s'.alive ==> Coherent(s')
  {
    match act {
      case Queue(body) => QueueKeeps(s, body, now);
      case Arrive(p) => ArriveKeeps(s, p, now);
      case Null =>
      case Timeout => TimeoutKeeps(s, now);
    }
  }

  lemma TimeoutKeeps(s: Side, now: nat)
    requires Coherent(s)
    ensures var s' := Record(s, Timeout, TimeoutStep(s.t, now)); s'.alive ==> Coherent(s')
  {
    hide Mod16;
  }

  /** One side's own move, seen from a peer it has been in step with. */
  lemma SideStep(s: Side, peer: Side, arriving: seq<Packet>, act: Action, now: nat)
    requires Allowed(s, act, arriving) && Coherent(s)
    requires Delivered(s, peer) && Delivered(peer, s)
    requires forall p :: p in arriving ==> Honest(p, peer)
    requires |peer.queued| - peer.acked <= SEQ_MOD / 2
    ensures var o := Apply(s.t, act, now);
            var s' := Record(s, act, o);
            && (s'.alive ==> Coherent(s')) && Delivered(s', peer) && Delivered(peer, s')
            && s.queued <= s'.queued && s.accepted <= s'.accepted && s.left <= s'.left
            && |s'.queued| - s'.acked <= SEQ_MOD / 2
            && (o.zlb ==> o.count == 0 && s'.t.controls == []) && (!s'.alive ==> Transmissions(o) == [])
  {
    hide Mod16, Acknowledged, Backoff, Coherent;
    StepIsCoherent(s, peer, arriving, act, now);
    CoherentIs(s);
    if act.Arrive? {
      AcknowledgedIsExact(s, act.p.nr);
      if act.p.wire.ns == s.t.nr && act.p.wire.body.Some? { TakenInOrder(s, peer, act.p); }
    }
  }

  lemma NextKeepsInv(w: World, m: Move)
    requires Inv(w) && Enabled(w, m)
    ensures Inv(Next(w, m))
  {
    hide Mod16, Apply, Coherent;
    var s, peer, arriving := if m.atA then w.a else w.b, if m.atA then w.b else w.a, if m.atA then w.toA else w.toB;
    SideStep(s, peer, arriving, m.act, m.now);
    var o := Apply(s.t, m.act, m.now);
    var s' := Record(s, m.act, o);
    forall i | 0 <= i < |Sent(s', o)|
      ensures Honest(Sent(s', o)[i], s')
    {
      SentIsHonest(s', o, i);
    }
  }

  /** Reliable delivery over every run: each side's accepted messages are a prefix of what the
      other queued, in order and once each; a message leaves a queue only after the peer took it;
      and on a live side the window law holds. */
  lemma {:induction false} RunIsReliable(w: World, moves: seq<Move>)
    requires Inv(w) && IsRun(w, moves)
    ensures Inv(After(w, moves))
    decreases moves
  {
    if moves != [] {
      NextKeepsInv(w, moves[0]);
      RunIsReliable(Next(w, moves[0]), moves[1..]);
    }
  }

  lemma ReliableDelivery(w: World, moves: seq<Move>)
    requires Initial(w) && IsRun(w, moves)
    ensures var v := After(w, moves);
            && v.b.accepted <= v.a.queued && v.a.accepted <= v.b.queued
            && v.a.acked <= |v.b.accepted| && v.b.acked <= |v.a.accepted|
            && (v.a.alive ==> v.a.acked + |v.a.t.controls| == |v.a.queued|)
            && (v.b.alive ==> v.b.acked + |v.b.t.controls| == |v.b.queued|)
  {
    RunIsReliable(w, moves);
  }

  /** The window law over every run: entry k of a queue carries ns - controlc + k (mod 2^16), and
      the queued messages transmitted at least once are exactly the first min(controlc, window). */
  lemma WindowLaw(w: World, moves: seq<Move>, atA: bool, k: nat)
    requires Initial(w) && IsRun(w, moves)
    requires var s := End(After(w, moves), atA); s.alive && k < |s.t.controls|
    ensures var s := End(After(w, moves), atA);
            && s.t.controls[k].ns == Mod16(s.t.ns - |s.t.controls| + k)
            && (s.acked + k in s.left <==> k < s.t.window)
  {
    hide Mod16, After, IsRun;
    RunIsReliable(w, moves);
    var s := End(After(w, moves), atA);
    assert s.t.controls[k].ns == Mod16(s.acked + k);
    Counted(|s.queued|, |s.t.controls|, k);
  }

  // ---- crossed messages ----

  /** The number behind the last message an end has transmitted: as far as its window reaches. */
  function Transmitted(s: Side): nat { s.acked + Min(|s.t.controls|, s.t.window) }

  /** Both queues wait, and each end has accepted everything the other has transmitted. */
  ghost predicate Crossed(w: World) {
    forall atA :: Taken(End(w, atA), End(w, !atA))
  }

  ghost predicate Taken(s: Side, peer: Side) {
    s.alive && s.t.controls != [] && |peer.accepted| == Transmitted(s)
  }

  /** What follows for an end, whether or not its peer lives on: nothing in flight is new to it. */
  ghost predicate Deaf(w: World, atA: bool) {
    End(w, atA).alive ==>
      && Taken(End(w, atA), End(w, !atA))
      && forall p :: p in Flight(w, atA) ==> p.ns < |End(w, atA).accepted|
  }

  ghost predicate Blocked(w: World) { Deaf(w, true) && Deaf(w, false) }

  /** A new message would not be transmitted at once. */
  predicate Filled(s: Side) { |s.t.controls| >= s.t.window }

  lemma OldNews(s: Side, peer: Side, p: Packet)
    requires Coherent(peer) && Honest(p, peer) && Taken(peer, s)
    ensures p.ns < |s.accepted|
  {
  }

  lemma CrossedIsBlocked(w: World)
    requires Inv(w) && Crossed(w)
    ensures Blocked(w)
  {
    hide Coherent, Honest, Taken;
    forall atA
      ensures Deaf(w, atA)
    {
      assert Taken(End(w, atA), End(w, !atA)) && Taken(End(w, !atA), End(w, atA));
      assert w.a.alive && w.b.alive by { hide *; TakenAlive(w); }
      forall p | p in Flight(w, atA)
        ensures p.ns < |End(w, atA).accepted|
      {
        OldNews(End(w, atA), End(w, !atA), p);
      }
    }
  }

  lemma TakenAlive(w: World)
    requires Crossed(w)
    ensures w.a.alive && w.b.alive
  {
    assert Taken(End(w, true), End(w, false)) && Taken(End(w, false), End(w, true));
  }

  /** With its queue waiting, an end for which nothing is new treats every packet as out of sequence: it
      neither reads the acknowledgement in it nor answers with a zero length block. */
  lemma CrossedIgnores(w: World, atA: bool, p: Packet, now: nat)
    requires Inv(w) && Deaf(w, atA) && Enabled(w, Move(atA, Arrive(p), now))
    ensures ReceiveStep(End(w, atA).t, p.wire, now) == Quiet(End(w, atA).t)
  {
    var s := End(w, atA);
    if p.wire.ns == s.t.nr {
      Unwrap(p.ns, |s.accepted|);
      assert false;
    }
  }

  lemma AliveCoherent(w: World, x: bool)
    requires Inv(w) && End(w, x).alive
    ensures Coherent(End(w, x))
  {
  }

  /** Blocked ends stay blocked, even once one of them is gone, and no acknowledgement is read. A message that
      is queued behind a full window changes nothing. */
  lemma BlockedStep(w: World, m: Move)
    requires Inv(w) && Blocked(w) && Enabled(w, m) && (m.act.Queue? ==> Filled(End(w, m.atA)))
    ensures var v := Next(w, m);
            && Blocked(v) && v.a.acked == w.a.acked && v.b.acked == w.b.acked
            && forall atA :: Filled(End(w, atA)) ==> Filled(End(v, atA))
  {
    hide Mod16, Backoff, Inv, Acknowledged;
    assert Deaf(w, m.atA);
    if m.act.Arrive? {
      CrossedIgnores(w, m.atA, m.act.p, m.now);
    } else if m.act.Timeout? {
      assert Coherent(End(w, m.atA)) by { AliveCoherent(w, m.atA); }
      BlockedTimeout(w, m);
    }
  }

  lemma BlockedTimeout(w: World, m: Move)
    requires Blocked(w) && Enabled(w, m) && m.act.Timeout? && Coherent(End(w, m.atA))
    ensures var v := Next(w, m);
            && Blocked(v) && v.a.acked == w.a.acked && v.b.acked == w.b.acked
            && forall atA :: Filled(End(w, atA)) ==> Filled(End(v, atA))
  {
    hide Mod16, Backoff, Coherent;
    CoherentIs(End(w, m.atA));
    assert Deaf(w, m.atA);
  }

  lemma {:induction false} BlockedForever(w: World, moves: seq<Move>)
    requires Inv(w) && Blocked(w) && IsRun(w, moves)
    requires forall m :: m in moves && m.act.Queue? ==> Filled(End(w, m.atA))
    ensures var v := After(w, moves); v.a.acked == w.a.acked && v.b.acked == w.b.acked
    decreases moves
  {
    hide Inv, Blocked, Enabled, Filled;
    if moves != [] {
      NextKeepsInv(w, moves[0]);
      BlockedStep(w, moves[0]);
      BlockedForever(Next(w, moves[0]), moves[1..]);
    }
  }

  /** Crossed ends never read an acknowledgement again, whatever is resent, redelivered or queued behind a
      full window: only a new message that falls inside a window can free them. */
  lemma CrossedForever(w: World, moves: seq<Move>)
    requires Inv(w) && Crossed(w) && IsRun(w, moves)
    requires forall m :: m in moves && m.act.Queue? ==> Filled(End(w, m.atA))
    ensures var v := After(w, moves); v.a.acked == w.a.acked && v.b.acked == w.b.acked
  {
    CrossedIsBlocked(w);
    BlockedForever(w, moves);
  }

  // ---- any other pair of ends ----

  /** A run without new messages in which an acknowledgement is read. */
  ghost predicate Heard(w: World, moves: seq<Move>) {
    && IsRun(w, moves) && (forall m :: m in moves ==> !m.act.Queue?)
    && (After(w, moves).a.acked > w.a.acked || After(w, moves).b.acked > w.b.acked)
  }

  lemma Prepend(w: World, m: Move, moves: seq<Move>) returns (all: seq<Move>)
    requires Enabled(w, m) && !m.act.Queue? && Heard(Next(w, m), moves)
    requires Next(w, m).a.acked >= w.a.acked && Next(w, m).b.acked >= w.b.acked
    ensures Heard(w, all)
  {
    hide Enabled, Next;
    all := [m] + moves;
    assert all[1..] == moves;
  }

  lemma Single(w: World, m: Move) returns (all: seq<Move>)
    requires Enabled(w, m) && !m.act.Queue?
    requires Next(w, m).a.acked > w.a.acked || Next(w, m).b.acked > w.b.acked
    ensures Heard(w, all)
  {
    hide Enabled, Next;
    all := [m];
    assert all[1..] == [];
    assert IsRun(Next(w, m), []) && After(Next(w, m), []) == Next(w, m);
    assert IsRun(w, all) && After(w, all) == Next(w, m);
  }

  /** What a step leaves as it was. */
  ghost predicate Keeps(s: Side, s': Side) {
    && s'.alive && s'.t.controls == s.t.controls && s'.t.window == s.t.window && s'.t.ns == s.t.ns
    && s'.acked == s.acked && s'.queued == s.queued
  }

  /** What the k-th waiting message looks like on the wire when it is sent now. */
  function Copied(s: Side, k: nat): Packet
    requires k < |s.t.controls|
  {
    Packet(Wire(s.t.controls[k].ns, s.t.nr, Some(s.t.controls[k].body)), s.acked + k, |s.accepted|)
  }

  lemma ResendAt(w: World, x: bool) returns (m: Move)
    requires Inv(w) && End(w, x).alive && End(w, x).t.controls != [] && End(w, x).t.tries < MAX_TRIES
    ensures Enabled(w, m) && m.act.Timeout? && Inv(Next(w, m))
    ensures var s, v := End(w, x), Next(w, m);
            && Keeps(s, End(v, x)) && End(v, x).accepted == s.accepted && End(v, !x) == End(w, !x)
            && forall k :: 0 <= k < Min(|s.t.controls|, s.t.window) ==> Copied(s, k) in Flight(v, !x)
  {
    hide Mod16, Inv, Coherent, TimeoutStep, Sent, Record, Keeps, Copied;
    var s := End(w, x);
    assert Coherent(s) by { AliveCoherent(w, x); }
    ResendOut(s);
    m := Move(x, Timeout, s.t.retry);
    NextKeepsInv(w, m);
    var o := TimeoutStep(s.t, m.now);
    assert Flight(Next(w, m), !x) == Flight(w, !x) + Sent(Record(s, Timeout, o), o);
    assert End(Next(w, m), x) == Record(s, Timeout, o) && End(Next(w, m), !x) == End(w, !x);
  }

  lemma ResendOut(s: Side)
    requires Coherent(s) && s.t.controls != [] && s.t.tries < MAX_TRIES
    ensures s.t.retry > 0
    ensures var o := TimeoutStep(s.t, s.t.retry); var s' := Record(s, Timeout, o);
            && Keeps(s, s') && s'.accepted == s.accepted
            && forall k :: 0 <= k < Min(|s.t.controls|, s.t.window) ==> Copied(s, k) in Sent(s', o)
  {
    hide Mod16, Backoff;
    var o := TimeoutStep(s.t, s.t.retry);
    var sent := Sent(Record(s, Timeout, o), o);
    forall k | 0 <= k < Min(|s.t.controls|, s.t.window)
      ensures Copied(s, k) in sent
    {
      assert sent[k] == Copied(s, k);
    }
  }

  lemma NullAt(w: World, x: bool) returns (m: Move)
    requires Inv(w) && End(w, x).alive && End(w, x).t.controls == []
    ensures Enabled(w, m) && m.act.Null? && Inv(Next(w, m))
    ensures var s, v := End(w, x), Next(w, m);
            && Keeps(s, End(v, x)) && End(v, x).accepted == s.accepted && End(v, !x) == End(w, !x)
            && Packet(Wire(s.t.ns, s.t.nr, None), |s.queued|, |s.accepted|) in Flight(v, !x)
  {
    hide Mod16, Backoff;
    var s := End(w, x);
    m := Move(x, Null, 0);
    NextKeepsInv(w, m);
    var sent := Sent(End(Next(w, m), x), NullStep(s.t, 0));
    assert Flight(Next(w, m), !x) == Flight(w, !x) + sent;
    assert sent[0] == Packet(Wire(s.t.ns, s.t.nr, None), |s.queued|, |s.accepted|);
  }

  /** A packet in sequence is read: its message is accepted and its acknowledgement taken. */
  lemma ReadAt(w: World, y: bool, p: Packet) returns (m: Move)
    requires Inv(w) && End(w, y).alive && p in Flight(w, y)
    requires p.ns == |End(w, y).accepted| && p.nr >= End(w, y).acked
    ensures Enabled(w, m) && m.act.Arrive? && Inv(Next(w, m))
    ensures var s, s' := End(w, y), End(Next(w, m), y);
            && End(Next(w, m), !y) == End(w, !y) && s'.acked == p.nr
            && s'.accepted == s.accepted + (if p.wire.body.Some? then [p.wire.body.value] else [])
            && (p.nr == s.acked ==> Keeps(s, s') && s'.t.tries == s.t.tries)
  {
    hide Mod16, Backoff, Acknowledged;
    m := Move(y, Arrive(p), 0);
    var s := End(w, y);
    assert Honest(p, End(w, !y)) && p.nr <= |s.queued|;
    AcknowledgedIsExact(s, p.nr);
    NextKeepsInv(w, m);
  }

  /** An end whose peer has accepted just what was acknowledged can tell it, by a zero length block or by
      resending, what it has accepted itself. */
  lemma Answer(w: World, y: bool) returns (moves: seq<Move>)
    requires Inv(w) && End(w, y).alive && End(w, !y).alive && End(w, y).t.tries < MAX_TRIES
    requires End(w, y).acked == |End(w, !y).accepted| && End(w, !y).acked < |End(w, y).accepted|
    ensures Heard(w, moves)
  {
    hide Mod16, Next, Enabled, Heard;
    var s, m, p := End(w, y), Move(y, Null, 0), Packet(Wire(0, 0, None), 0, 0);
    if s.t.controls == [] {
      m := NullAt(w, y);
      p := Packet(Wire(s.t.ns, s.t.nr, None), |s.queued|, |s.accepted|);
    } else {
      m := ResendAt(w, y);
      p := Copied(s, 0);
    }
    var v := Next(w, m);
    assert p in Flight(v, !y);
    var m' := ReadAt(v, !y, p);
    var rest := Single(v, m');
    moves := Prepend(w, m, rest);
  }

  /** An end that has not accepted all its peer has transmitted is sent it again, and one of the two hears. */
  lemma Catch(w: World, x: bool) returns (moves: seq<Move>)
    requires Inv(w) && End(w, x).alive && End(w, !x).alive
    requires End(w, x).t.tries < MAX_TRIES && End(w, !x).t.tries < MAX_TRIES
    requires |End(w, !x).accepted| < Transmitted(End(w, x))
    ensures Heard(w, moves)
  {
    hide Mod16, Next, Enabled, Heard, Coherent;
    var s, peer := End(w, x), End(w, !x);
    var k := |peer.accepted| - s.acked;
    var m := ResendAt(w, x);
    var v := Next(w, m);
    var p := Copied(s, k);
    assert p in Flight(v, !x);
    var m' := ReadAt(v, !x, p);
    var rest;
    if |s.accepted| > peer.acked {
      rest := Single(v, m');
    } else {
      var u := Next(v, m');
      assert End(u, x) == End(v, x);
      rest := Answer(u, !x);
      rest := Prepend(v, m', rest);
    }
    moves := Prepend(w, m, rest);
  }

  /** The exact condition: two live ends, one with a message waiting and neither on its last try, can hear no
      acknowledgement any more, short of a new message, if and only if their messages have crossed. */
  lemma CrossedIff(w: World)
    requires Inv(w) && w.a.alive && w.b.alive && (w.a.t.controls != [] || w.b.t.controls != [])
    requires w.a.t.tries < MAX_TRIES && w.b.t.tries < MAX_TRIES
    ensures Crossed(w) <==> !exists moves :: Heard(w, moves)
  {
    if Crossed(w) {
      forall moves
        ensures !Heard(w, moves)
      {
        if Heard(w, moves) { CrossedForever(w, moves); }
      }
    } else {
      var moves := Hears(w);
    }
  }

  lemma Hears(w: World) returns (moves: seq<Move>)
    requires Inv(w) && w.a.alive && w.b.alive && (w.a.t.controls != [] || w.b.t.controls != [])
    requires w.a.t.tries < MAX_TRIES && w.b.t.tries < MAX_TRIES && !Crossed(w)
    ensures Heard(w, moves)
  {
    hide Heard, Inv, Taken, Transmitted;
    if x :| |End(w, !x).accepted| < Transmitted(End(w, x)) {
      moves := Catch(w, x);
    } else {
      var x :| !Taken(End(w, x), End(w, !x));
      NothingWaits(w, x);
      assert End(w, !!x) == End(w, x);
      NothingWaits(w, !x);
      moves := Answer(w, x);
    }
  }

  /** An end whose messages have all been accepted as far as they were transmitted. */
  lemma NothingWaits(w: World, x: bool)
    requires Inv(w) && End(w, x).alive && |End(w, !x).accepted| >= Transmitted(End(w, x))
    ensures !Taken(End(w, x), End(w, !x)) ==> End(w, x).t.controls == []
    ensures if End(w, x).t.controls == [] then |End(w, !x).accepted| == End(w, x).acked
            else |End(w, !x).accepted| > End(w, x).acked
  {
    hide Mod16;
    var s, peer := End(w, x), End(w, !x);
    assert Delivered(s, peer) && Coherent(s);
    if |peer.accepted| > 0 { assert |peer.accepted| - 1 in s.left; }
  }

  // ---- how they get there ----

  lemma {:induction false} Extend(w: World, moves: seq<Move>, m: Move)
    requires IsRun(w, moves) && Enabled(After(w, moves), m)
    ensures IsRun(w, moves + [m]) && After(w, moves + [m]) == Next(After(w, moves), m)
    decreases moves
  {
    if moves == [] {
      assert (moves + [m])[1..] == [];
    } else {
      assert (moves + [m])[1..] == moves[1..] + [m];
      Extend(Next(w, moves[0]), moves[1..], m);
    }
  }

  ghost predicate OneQueued(s: Side, m: Message) {
    s.alive && s.t.nr == 0 && s.t.window > 0 && s.t.controls == [Control(0, m)] && s.t.ns == 1 &&
    s.queued == [m] && s.acked == 0 && s.accepted == []
  }

  function First(m: Message): Packet { Packet(Wire(0, 0, Some(m)), 0, 0) }

  lemma FirstQueued(s: Side, m: Message)
    requires Fresh(s)
    ensures var o := AddStep(s.t, m, 0); var s' := Record(s, Queue(m), o);
            OneQueued(s', m) && Sent(s', o) == [First(m)]
  {
  }

  lemma FirstTaken(s: Side, m: Message, n: Message)
    requires OneQueued(s, m)
    ensures var o := ReceiveStep(s.t, First(n).wire, 0); var s' := Record(s, Arrive(First(n)), o);
            s'.alive && s'.t == s.t.(nr := 1) && s'.acked == 0 && s'.accepted == [n] && s'.queued == s.queued
  {
  }

  /** Two messages that cross, with nothing lost, get there. */
  lemma CrossedIsReachable(w: World, m: Message, n: Message) returns (moves: seq<Move>)
    requires Initial(w)
    ensures IsRun(w, moves) && Crossed(After(w, moves))
  {
    hide AddStep, ReceiveStep, Sent, Record;
    FirstQueued(w.a, m);
    FirstQueued(w.b, n);
    var w2 := Next(Next(w, Move(true, Queue(m), 0)), Move(false, Queue(n), 0));
    assert w2.toB == [First(m)] && w2.toA == [First(n)];
    moves := [] + [Move(true, Queue(m), 0)];
    Extend(w, [], Move(true, Queue(m), 0));
    Extend(w, moves, Move(false, Queue(n), 0));
    moves := moves + [Move(false, Queue(n), 0)];
    assert After(w, moves) == w2;
    FirstTaken(w2.b, n, m);
    FirstTaken(w2.a, m, n);
    var toB, toA := Move(false, Arrive(First(m)), 0), Move(true, Arrive(First(n)), 0);
    Extend(w, moves, toB);
    var w3 := Next(w2, toB);
    assert First(n) in w3.toA by { assert w3.toA[0] == First(n); }
    Extend(w, moves + [toB], toA);
    moves := moves + [toB] + [toA];
  }
}
