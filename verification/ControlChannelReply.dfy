/** What every move of an end puts on the wire, told by the unbounded histories alone: first transmissions, resends
    and zero length blocks. So a lost acknowledgement is replaced, and a queue drains, by resends alone. */
module ControlChannelReply {
  import opened Common
  import opened ControlChannel
  import opened ControlChannelRun

  /** Messages `lo` to `hi` of a history as they go out, each quoting `nr` accepted messages. */
  function Copies(queued: seq<Message>, lo: nat, hi: nat, nr: nat): (ps: seq<Packet>)
    requires hi <= |queued|
    ensures |ps| == if lo < hi then hi - lo else 0
    ensures forall i :: 0 <= i < |ps| ==>
              ps[i] == Packet(Wire(Mod16(lo + i), Mod16(nr), Some(queued[lo + i])), lo + i, nr)
  {
    if lo < hi then
      seq(hi - lo, i requires 0 <= i < hi - lo =>
            Packet(Wire(Mod16(lo + i), Mod16(nr), Some(queued[lo + i])), lo + i, nr))
    else []
  }

  /** A zero length block: the number of the next message, and how many have been accepted. */
  function Acknowledgement(s: Side): Packet {
    Packet(Wire(Mod16(|s.queued|), Mod16(|s.accepted|), None), |s.queued|, |s.accepted|)
  }

  /** The waits between resends, in tenths of a second. */
  function Doubled(k: nat): nat { if k == 0 then 10 else 2 * Doubled(k - 1) }

  function Wait(tries: nat): nat { Doubled(if tries < 5 then tries else 5) }

  /** The deadline doubles with every try, up to 32 seconds. */
  lemma {:induction false} BackoffDoubles(tries: nat, now: int)
    ensures Backoff(tries, now) == now + Wait(tries)
    ensures Doubled(5) == 320
  {
    assert Doubled(1) == 20 && Doubled(2) == 40 && Doubled(3) == 80 && Doubled(4) == 160 && Doubled(5) == 320;
  }

  /** Move `m` leaves the other end and what travels to this one alone, and puts `out` in flight. */
  ghost predicate PutsOut(w: World, m: Move, out: seq<Packet>) {
    var v := Next(w, m);
    && End(v, !m.atA) == End(w, !m.atA) && Flight(v, m.atA) == Flight(w, m.atA)
    && Flight(v, !m.atA) == Flight(w, !m.atA) + out
  }

  /** Nothing happens. */
  ghost predicate Idle(w: World, m: Move) { PutsOut(w, m, []) && End(Next(w, m), m.atA) == End(w, m.atA) }

  /** What is counted of an end's own messages does not change. */
  ghost predicate SameMessages(s: Side, s': Side) {
    s'.alive && s'.queued == s.queued && s'.acked == s.acked && s'.accepted == s.accepted && s'.left == s.left
  }

  lemma OutIs(w: World, m: Move, o: Outcome)
    requires o == Apply(End(w, m.atA).t, m.act, m.now)
    ensures var s' := Record(End(w, m.atA), m.act, o); End(Next(w, m), m.atA) == s' && PutsOut(w, m, Sent(s', o))
  {
    hide Apply, Record, Sent;
  }

  lemma NothingOut(s: Side, o: Outcome)
    requires o.count == 0 && !o.zlb && o.first <= |o.next.controls|
    ensures Sent(s, o) == []
  {
  }

  lemma BlockOut(s: Side, o: Outcome)
    requires o.count == 0 && o.zlb && o.first <= |o.next.controls| && s.t == o.next && Coherent(s)
    ensures Sent(s, o) == [Acknowledgement(s)]
  {
    hide Mod16;
  }

  /** Sending a stretch of a coherent queue sends copies of the history. */
  lemma StretchOut(s: Side, o: Outcome)
    requires !o.zlb && o.first + o.count <= |o.next.controls| && s.t == o.next && Coherent(s)
    ensures Sent(s, o) == Copies(s.queued, s.acked + o.first, s.acked + o.first + o.count, |s.accepted|)
  {
    hide Mod16;
    var l, r := Sent(s, o), Copies(s.queued, s.acked + o.first, s.acked + o.first + o.count, |s.accepted|);
    assert |l| == |r| == o.count;
    forall i | 0 <= i < |l|
      ensures l[i] == r[i]
    {
      assert o.next.controls[o.first..o.first + o.count][i] == s.t.controls[o.first + i];
    }
  }

  // ---- one move at a time ----

  /** controlnull: an acknowledgement goes out exactly when nothing is queued that could carry it. */
  lemma NullSays(w: World, m: Move)
    requires Inv(w) && Enabled(w, m) && m.act.Null?
    ensures var s, s' := End(w, m.atA), End(Next(w, m), m.atA);
            if s.t.controls == [] then
              && PutsOut(w, m, [Acknowledgement(s)]) && SameMessages(s, s')
              && s'.t == s.t.(retry := s'.t.retry) && (s.t.tries >= 0 ==> s'.t.retry == m.now + Wait(s.t.tries))
            else Idle(w, m)
  {
    hide Mod16, Backoff, Sent, Coherent, Next, PutsOut, Wait;
    var s := End(w, m.atA);
    var o := NullStep(s.t, m.now);
    OutIs(w, m, o);
    var s' := Record(s, m.act, o);
    AliveCoherent(w, m.atA);
    StillCoherent(w, m);
    NothingLeaves(s.acked);
    if s.t.tries >= 0 { BackoffDoubles(s.t.tries, m.now); }
    if s.t.controls == [] { BlockOut(s', o); } else { NothingOut(s', o); }
  }

  lemma StillCoherent(w: World, m: Move)
    requires Inv(w) && Enabled(w, m)
    ensures End(Next(w, m), m.atA).alive ==> Coherent(End(Next(w, m), m.atA))
  {
    hide Next, Coherent;
    NextKeepsInv(w, m);
  }

  /** A message that does not come next, because it is repeated or something before it is missing, is not taken,
      but it is answered: when nothing is queued, with an acknowledgement. A zero length block that does not come
      next is not answered at all. */
  lemma RepeatIsAnswered(w: World, m: Move)
    requires Inv(w) && Enabled(w, m) && m.act.Arrive? && m.act.p.ns != |End(w, m.atA).accepted|
    ensures var s, s' := End(w, m.atA), End(Next(w, m), m.atA);
            if s.t.controls == [] && m.act.p.wire.body.Some? then
              && PutsOut(w, m, [Acknowledgement(s)]) && SameMessages(s, s')
              && s'.t == s.t.(retry := s'.t.retry) && (s.t.tries >= 0 ==> s'.t.retry == m.now + Wait(s.t.tries))
            else Idle(w, m)
  {
    hide Mod16, Backoff, Sent, Coherent, Next, PutsOut, Acknowledged, Wait;
    var s, p := End(w, m.atA), m.act.p;
    var o := ReceiveStep(s.t, p.wire, m.now);
    OutIs(w, m, o);
    var s' := Record(s, m.act, o);
    AliveCoherent(w, m.atA);
    StillCoherent(w, m);
    NothingLeaves(s.acked);
    NotNext(w, m.atA, p);
    if s.t.tries >= 0 { BackoffDoubles(s.t.tries, m.now); }
    if s.t.controls == [] && p.wire.body.Some? { BlockOut(s', o); } else { NothingOut(s', o); }
  }

  /** Not being next shows in 16 bits. */
  lemma NotNext(w: World, x: bool, p: Packet)
    requires Inv(w) && End(w, x).alive && p in Flight(w, x) && |End(w, x).accepted| - p.ns < SEQ_MOD / 2
    ensures p.wire.ns == End(w, x).t.nr <==> p.ns == |End(w, x).accepted|
  {
    hide Mod16;
    var s := End(w, x);
    assert Honest(p, End(w, !x)) && Coherent(s) && Delivered(End(w, !x), s);
    if p.wire.ns == s.t.nr { Unwrap(p.ns, |s.accepted|); }
  }

  /** What an end has transmitted covers whatever its peer has accepted, and so any acknowledgement. */
  lemma AcceptedWasSent(w: World, x: bool)
    requires Inv(w) && End(w, x).alive
    ensures End(w, x).acked <= |End(w, !x).accepted| <= Transmitted(End(w, x))
  {
    hide Mod16;
    var s, peer := End(w, x), End(w, !x);
    assert Delivered(s, peer) && Coherent(s);
    if |peer.accepted| > 0 { assert |peer.accepted| - 1 in s.left; }
  }

  /** A packet that comes next: its message is accepted, it acknowledges what it quotes, and the messages that come
      inside the window go out for the first time, in order, quoting what has been accepted by then. */
  lemma NextIsTaken(w: World, m: Move)
    requires Inv(w) && Enabled(w, m) && m.act.Arrive? && m.act.p.ns == |End(w, m.atA).accepted|
    ensures var s, s', p := End(w, m.atA), End(Next(w, m), m.atA), m.act.p;
            && s'.alive && s'.t.window == s.t.window && s'.queued == s.queued && s'.acked == Max(s.acked, p.nr)
            && s'.accepted == s.accepted + (if p.wire.body.Some? then [p.wire.body.value] else [])
            && Transmitted(s') <= |s.queued|
            && PutsOut(w, m, Copies(s.queued, Transmitted(s), Transmitted(s'), |s'.accepted|))
            && s'.t.tries == (if s'.acked > s.acked || Transmitted(s') > Transmitted(s) then 0 else s.t.tries)
            && s'.t.retry == (if s'.t.controls == [] then 0
                              else if Transmitted(s') > Transmitted(s) then m.now + 10 else s.t.retry)
  {
    hide Mod16, Sent, Coherent, Next, PutsOut, Record, ReceiveStep, Transmitted;
    var s, p := End(w, m.atA), m.act.p;
    var o := ReceiveStep(s.t, p.wire, m.now);
    OutIs(w, m, o);
    var s' := Record(s, m.act, o);
    AliveCoherent(w, m.atA);
    StillCoherent(w, m);
    NotNext(w, m.atA, p);
    AcceptedWasSent(w, m.atA);
    Quoted(w, m.atA, p);
    AcknowledgedIsExact(s, p.nr);
    TakenStep(s, p, m.now);
    StretchOut(s', o);
  }

  /** The step of an end for which `p` comes next. */
  lemma TakenStep(s: Side, p: Packet, now: int)
    requires Coherent(s) && p.wire.ns == s.t.nr && p.nr <= Transmitted(s)
    requires Acknowledged(s.t, p.wire.nr) == if p.nr > s.acked then p.nr - s.acked else 0
    ensures var o := ReceiveStep(s.t, p.wire, now); var s' := Record(s, Arrive(p), o);
            && !o.zlb && o.first + o.count <= |o.next.controls| && s'.t == o.next
            && s'.alive && s'.t.window == s.t.window && s'.queued == s.queued && s'.acked == Max(s.acked, p.nr)
            && s'.accepted == s.accepted + (if p.wire.body.Some? then [p.wire.body.value] else [])
            && s'.acked + o.first == Transmitted(s) && s'.acked + o.first + o.count == Transmitted(s') <= |s.queued|
            && s'.t.tries == (if s'.acked > s.acked || Transmitted(s') > Transmitted(s) then 0 else s.t.tries)
            && s'.t.retry == (if s'.t.controls == [] then 0
                              else if Transmitted(s') > Transmitted(s) then now + 10 else s.t.retry)
  {
    hide Mod16, Coherent, Acknowledged;
    CoherentIs(s);
  }

  lemma Quoted(w: World, x: bool, p: Packet)
    requires Inv(w) && p in Flight(w, x)
    ensures p.nr <= |End(w, !x).accepted| && p.wire.nr == Mod16(p.nr) && p.nr <= |End(w, x).queued|
    ensures p.ns <= |End(w, !x).queued|
    ensures p.wire.body.Some? ==> p.ns < |End(w, !x).queued| && p.wire.body.value == End(w, !x).queued[p.ns]
  {
    hide Mod16, Coherent;
    assert Honest(p, End(w, !x)) && Delivered(End(w, x), End(w, !x));
  }

  /** controladd: the message joins the history; it goes out at once exactly when it falls inside the window. */
  lemma QueueSays(w: World, m: Move)
    requires Inv(w) && Enabled(w, m) && m.act.Queue?
    ensures var s, s' := End(w, m.atA), End(Next(w, m), m.atA);
            && s'.alive && s'.t.window == s.t.window && s'.queued == s.queued + [m.act.body]
            && s'.acked == s.acked && s'.accepted == s.accepted
            && Transmitted(s') == Min(|s'.queued|, s.acked + s.t.window)
            && PutsOut(w, m, Copies(s'.queued, Transmitted(s), Transmitted(s'), |s.accepted|))
            && (if Transmitted(s') > Transmitted(s) then s'.t.tries == 0 && s'.t.retry == m.now + 10
                else s'.t.tries == s.t.tries && s'.t.retry == s.t.retry)
  {
    hide Mod16, Sent, Coherent, Next, PutsOut;
    var s := End(w, m.atA);
    var o := AddStep(s.t, m.act.body, m.now);
    OutIs(w, m, o);
    var s' := Record(s, m.act, o);
    AliveCoherent(w, m.atA);
    StillCoherent(w, m);
    CoherentIs(s);
    CoherentIs(s');
    StretchOut(s', o);
    assert s'.acked + o.first == |s'.queued| || s'.acked + o.first == Transmitted(s);
    assert o.count == 0 ==> Copies(s'.queued, s'.acked + o.first, s'.acked + o.first + o.count, |s.accepted|) == [];
  }

  /** The resend check: before the deadline, or with nothing waiting, it does nothing. Later, everything inside the
      window goes out again, quoting what has been accepted by now, and the wait doubles; after five tries the end
      gives up. */
  lemma TimeoutSays(w: World, m: Move)
    requires Inv(w) && Enabled(w, m) && m.act.Timeout?
    ensures var s, s' := End(w, m.atA), End(Next(w, m), m.atA);
            if s.t.controls == [] || m.now < s.t.retry then Idle(w, m)
            else if s.t.tries >= MAX_TRIES then !s'.alive && PutsOut(w, m, [])
            else
              && Transmitted(s) <= |s.queued| && s.t.tries + 1 <= 5
              && PutsOut(w, m, Copies(s.queued, s.acked, Transmitted(s), |s.accepted|)) && SameMessages(s, s')
              && s'.t == s.t.(tries := s.t.tries + 1, retry := s'.t.retry)
              && (s.t.tries >= 0 ==> s'.t.retry == m.now + Doubled(s.t.tries + 1))
  {
    hide Mod16, Sent, Coherent, Next, PutsOut, Backoff, Doubled;
    var s := End(w, m.atA);
    var o := TimeoutStep(s.t, m.now);
    OutIs(w, m, o);
    var s' := Record(s, m.act, o);
    AliveCoherent(w, m.atA);
    StillCoherent(w, m);
    CoherentIs(s);
    Waits(s);
    if s'.alive {
      CoherentIs(s');
      StretchOut(s', o);
      NothingLeaves(s.acked);
      if s.t.tries >= 0 { BackoffDoubles(s.t.tries + 1, m.now); }
      if o.count > 0 { AlreadyLeft(s); }
    } else {
      NothingOut(s', o);
    }
  }

  lemma Waits(s: Side)
    requires Coherent(s)
    ensures s.t.controls != [] ==> s.t.retry > 0
  {
  }

  /** What is inside the window has left before. */
  lemma AlreadyLeft(s: Side)
    requires Coherent(s)
    ensures s.left + Range(s.acked, Transmitted(s)) == s.left
  {
    hide Mod16, Range;
  }

  // ---- runs ----

  /** Nothing but resend checks and arrivals. */
  ghost predicate Resending(moves: seq<Move>) { forall m :: m in moves ==> m.act.Timeout? || m.act.Arrive? }

  /** The moves are possible, and lead to `v`. */
  ghost predicate Leads(w: World, moves: seq<Move>, v: World) {
    IsRun(w, moves) && After(w, moves) == v && Resending(moves)
  }

  lemma LeadsNowhere(w: World)
    ensures Leads(w, [], w)
  {
  }

  lemma LeadsOn(w: World, m: Move, moves: seq<Move>, v: World)
    requires Enabled(w, m) && (m.act.Timeout? || m.act.Arrive?) && Leads(Next(w, m), moves, v)
    ensures Leads(w, [m] + moves, v)
  {
    hide Enabled, Next;
    assert ([m] + moves)[1..] == moves;
  }

  lemma {:induction false} LeadsFurther(w: World, moves: seq<Move>, v: World, more: seq<Move>, u: World)
    requires Leads(w, moves, v) && Leads(v, more, u)
    ensures Leads(w, moves + more, u)
    decreases |moves|
  {
    hide Enabled, Next;
    if moves == [] {
      assert moves + more == more;
    } else {
      LeadsFurther(Next(w, moves[0]), moves[1..], v, more, u);
      assert (moves + more)[1..] == moves[1..] + more;
    }
  }

  /** With nothing queued, an end has been told that all it sent was accepted. */
  lemma AllAccepted(w: World, x: bool)
    requires Inv(w) && End(w, x).alive
    ensures End(w, x).acked <= |End(w, x).queued| && |End(w, x).t.controls| == |End(w, x).queued| - End(w, x).acked
    ensures End(w, !x).accepted <= End(w, x).queued && End(w, x).acked <= |End(w, !x).accepted|
    ensures |End(w, x).queued| - End(w, x).acked <= SEQ_MOD / 2
  {
    hide Mod16;
    assert Coherent(End(w, x)) && Delivered(End(w, x), End(w, !x));
  }

  /** A resend, due at the deadline. */
  lemma Resend(w: World, x: bool) returns (m: Move)
    requires Inv(w) && End(w, x).alive && End(w, x).t.controls != [] && 0 <= End(w, x).t.tries < MAX_TRIES
    ensures Enabled(w, m) && m.act.Timeout? && Inv(Next(w, m)) && m.atA == x
    ensures var s, s' := End(w, x), End(Next(w, m), x);
            && Transmitted(s) <= |s.queued|
            && PutsOut(w, m, Copies(s.queued, s.acked, Transmitted(s), |s.accepted|)) && SameMessages(s, s')
            && s'.t == s.t.(tries := s.t.tries + 1, retry := s'.t.retry)
  {
    hide Inv, Next, PutsOut, SameMessages, Doubled;
    assert Coherent(End(w, x)) by { AliveCoherent(w, x); }
    Waits(End(w, x));
    m := Move(x, Timeout, End(w, x).t.retry);
    TimeoutSays(w, m);
    NextKeepsInv(w, m);
  }

  /** When only an acknowledgement was lost: the peer has accepted more than this end knows, and has nothing queued.
      Then a resend is answered, and the answer read, without either end being asked for anything. */
  lemma LostAckHeals(w: World, x: bool) returns (moves: seq<Move>, v: World)
    requires Inv(w) && w.a.alive && w.b.alive && 0 <= End(w, x).t.tries < MAX_TRIES
    requires End(w, !x).t.controls == [] && End(w, x).acked < |End(w, !x).accepted|
    ensures Leads(w, moves, v) && Inv(v) && v.a.alive && v.b.alive
    ensures var s, s', peer, peer' := End(w, x), End(v, x), End(w, !x), End(v, !x);
            && s'.acked == |peer.accepted| && s'.queued == s.queued && s'.accepted == s.accepted && s'.t.tries == 0
            && SameMessages(peer, peer') && peer'.t.controls == []
  {
    hide Inv, Next, Enabled, Doubled, Coherent, Transmitted, Leads;
    var s, peer := End(w, x), End(w, !x);
    AllAccepted(w, x);
    AllAccepted(w, !x);
    AcceptedWasSent(w, x);
    var m1 := Resend(w, x);
    var w1 := Next(w, m1);
    var out := Copies(s.queued, s.acked, Transmitted(s), |s.accepted|);
    var p := out[|peer.accepted| - 1 - s.acked];
    assert p in Flight(w1, !x);
    var m2 := Move(!x, Arrive(p), 0);
    assert Enabled(w1, m2) by { CanArrive(w1, m2); }
    RepeatIsAnswered(w1, m2);
    NextKeepsInv(w1, m2);
    var w2 := Next(w1, m2);
    assert Flight(w2, x) == Flight(w1, x) + [Acknowledgement(peer)];
    assert Acknowledgement(peer) in Flight(w2, x);
    var m3 := Move(x, Arrive(Acknowledgement(peer)), 0);
    assert Enabled(w2, m3) by { CanArrive(w2, m3); }
    NextIsTaken(w2, m3);
    NextKeepsInv(w2, m3);
    v := Next(w2, m3);
    LeadsNowhere(v);
    LeadsOn(w2, m3, [], v);
    LeadsOn(w1, m2, [m3] + [], v);
    moves := [m1] + ([m2] + ([m3] + []));
    LeadsOn(w, m1, [m2] + ([m3] + []), v);
  }

  lemma CanArrive(w: World, m: Move)
    requires m.act.Arrive? && End(w, m.atA).alive && m.act.p in Flight(w, m.atA)
    requires |End(w, m.atA).accepted| - m.act.p.ns < SEQ_MOD / 2 && End(w, m.atA).acked - m.act.p.nr < SEQ_MOD / 2
    ensures Enabled(w, m)
  {
  }

  /** A peer that has nothing queued can be sent all that waits, and this end learns that it has it, by resends
      alone. */
  lemma {:induction false} Drains(w: World, x: bool) returns (moves: seq<Move>, v: World)
    requires Inv(w) && w.a.alive && w.b.alive && 0 <= End(w, x).t.tries < MAX_TRIES - 1
    requires End(w, !x).t.controls == []
    ensures Leads(w, moves, v) && Inv(v) && v.a.alive && v.b.alive
    ensures End(v, x).queued == End(w, x).queued && End(v, x).t.controls == []
    ensures End(v, !x).accepted == End(w, x).queued
    decreases |End(w, x).queued| - End(w, x).acked
  {
    hide Inv, Next, Enabled, Doubled, Coherent, Transmitted, Leads;
    var s, peer := End(w, x), End(w, !x);
    AllAccepted(w, x);
    if s.t.controls == [] {
      moves, v := [], w;
      LeadsNowhere(w);
    } else {
      var first, w1 := [], w;
      LeadsNowhere(w);
      if |peer.accepted| == s.acked { first, w1 := Push(w, x); }
      var second, w2 := LostAckHeals(w1, x);
      LeadsFurther(w, first, w1, second, w2);
      var rest;
      rest, v := Drains(w2, x);
      moves := first + second + rest;
      LeadsFurther(w, first + second, w2, rest, v);
    }
  }

  /** The oldest message that waits is resent and accepted. */
  lemma Push(w: World, x: bool) returns (moves: seq<Move>, v: World)
    requires Inv(w) && w.a.alive && w.b.alive && 0 <= End(w, x).t.tries < MAX_TRIES - 1
    requires End(w, !x).t.controls == [] && End(w, x).t.controls != [] && |End(w, !x).accepted| == End(w, x).acked
    ensures Leads(w, moves, v) && Inv(v) && v.a.alive && v.b.alive
    ensures var s, s', peer, peer' := End(w, x), End(v, x), End(w, !x), End(v, !x);
            && SameMessages(s, s') && s'.t.tries == s.t.tries + 1
            && peer'.queued == peer.queued && |peer'.accepted| == |peer.accepted| + 1 && peer'.t.controls == []
  {
    hide Inv, Next, Enabled, Doubled, Coherent, Leads;
    var s, peer := End(w, x), End(w, !x);
    AllAccepted(w, x);
    AllAccepted(w, !x);
    WindowOpen(w, x);
    var m1 := Resend(w, x);
    var w1 := Next(w, m1);
    var out := Copies(s.queued, s.acked, Transmitted(s), |s.accepted|);
    var p := out[0];
    assert p in Flight(w1, !x);
    var m2 := Move(!x, Arrive(p), 0);
    assert Enabled(w1, m2) by { CanArrive(w1, m2); }
    NextIsTaken(w1, m2);
    NextKeepsInv(w1, m2);
    v := Next(w1, m2);
    AllAccepted(v, !x);
    LeadsNowhere(v);
    LeadsOn(w1, m2, [], v);
    moves := [m1] + ([m2] + []);
    LeadsOn(w, m1, [m2] + [], v);
  }

  lemma WindowOpen(w: World, x: bool)
    requires Inv(w) && End(w, x).alive
    ensures End(w, x).t.window > 0
  {
    hide Mod16;
  }

  // ---- giving up ----

  /** When the resend checks fall due, from the `k`-th try on, if the peer stays silent. */
  function Schedule(retry: nat, k: nat): (ts: seq<nat>)
    ensures |ts| >= 1
    decreases 5 - k
  {
    if k >= 5 then [retry] else [retry] + Schedule(retry + Doubled(k + 1), k + 1)
  }

  function Timeouts(x: bool, ts: seq<nat>): (ms: seq<Move>)
    ensures |ms| == |ts| && forall i :: 0 <= i < |ts| ==> ms[i] == Move(x, Timeout, ts[i])
  {
    seq(|ts|, i requires 0 <= i < |ts| => Move(x, Timeout, ts[i]))
  }

  /** To a peer that stays silent, everything is resent at every deadline but the last, at which the end gives up;
      until then it keeps all its messages. */
  lemma {:induction false} GivesUp(w: World, x: bool)
    requires Inv(w) && End(w, x).alive && End(w, x).t.controls != [] && 0 <= End(w, x).t.tries <= MAX_TRIES
    ensures End(w, x).t.retry > 0
    ensures var s, ms := End(w, x), Timeouts(x, Schedule(End(w, x).t.retry, End(w, x).t.tries));
            && IsRun(w, ms) && !End(After(w, ms), x).alive
            && forall k :: 0 <= k < |ms| ==> IsRun(w, ms[..k]) && SameMessages(s, End(After(w, ms[..k]), x))
    decreases 5 - End(w, x).t.tries
  {
    hide Inv, Next, Enabled, Doubled, Coherent, PutsOut, SameMessages, Transmitted, Schedule, IsRun, After, Timeouts;
    var s := End(w, x);
    assert Coherent(s) by { AliveCoherent(w, x); }
    Waits(s);
    var m := Move(x, Timeout, s.t.retry);
    assert Enabled(w, m) by { CanTimeOut(w, m); }
    TimeoutSays(w, m);
    NextKeepsInv(w, m);
    var w1 := Next(w, m);
    ScheduleIs(s.t.retry, s.t.tries);
    if s.t.tries < MAX_TRIES {
      StaysAlive(s, End(w1, x));
      GivesUp(w1, x);
      var ts := Schedule(End(w1, x).t.retry, End(w1, x).t.tries);
      TimeoutsOn(x, s.t.retry, ts);
      KeptUntil(w, x, m, Timeouts(x, ts));
    } else {
      TimeoutsOn(x, s.t.retry, []);
      NoMoves(w1);
      KeptUntil(w, x, m, []);
    }
  }

  lemma NoMoves(w: World)
    ensures IsRun(w, []) && After(w, []) == w
  {
  }

  lemma ScheduleIs(retry: nat, k: nat)
    ensures Schedule(retry, k) == [retry] + if k >= 5 then [] else Schedule(retry + Doubled(k + 1), k + 1)
  {
    hide Doubled;
  }

  lemma TimeoutsOn(x: bool, t: nat, ts: seq<nat>)
    ensures Timeouts(x, [t] + ts) == [Move(x, Timeout, t)] + Timeouts(x, ts) && Timeouts(x, []) == []
  {
  }

  /** Moves that leave an end's messages alone, after one that does. */
  lemma KeptUntil(w: World, x: bool, m: Move, rest: seq<Move>)
    requires Enabled(w, m) && End(w, x).alive && IsRun(Next(w, m), rest)
    requires rest != [] ==> SameMessages(End(w, x), End(Next(w, m), x))
    requires forall k :: 0 <= k < |rest| ==>
               IsRun(Next(w, m), rest[..k]) && SameMessages(End(Next(w, m), x), End(After(Next(w, m), rest[..k]), x))
    ensures var ms := [m] + rest;
            && IsRun(w, ms) && After(w, ms) == After(Next(w, m), rest)
            && forall k :: 0 <= k < |ms| ==> IsRun(w, ms[..k]) && SameMessages(End(w, x), End(After(w, ms[..k]), x))
  {
    hide Next, Enabled, SameMessages;
    var ms, s := [m] + rest, End(w, x);
    assert ms[1..] == rest;
    Unchanged(s);
    forall k | 0 <= k < |ms|
      ensures IsRun(w, ms[..k]) && SameMessages(s, End(After(w, ms[..k]), x))
    {
      if k > 0 {
        assert ms[..k][1..] == rest[..k - 1] && ms[..k][0] == m;
        Together(s, End(Next(w, m), x), End(After(Next(w, m), rest[..k - 1]), x));
      }
    }
  }

  lemma CanTimeOut(w: World, m: Move)
    requires m.act.Timeout? && End(w, m.atA).alive
    ensures Enabled(w, m)
  {
  }

  lemma StaysAlive(s: Side, s': Side)
    requires SameMessages(s, s')
    ensures s'.alive
  {
  }

  lemma Unchanged(s: Side)
    requires s.alive
    ensures SameMessages(s, s)
  {
  }

  lemma Together(s: Side, s': Side, s'': Side)
    requires SameMessages(s, s') && SameMessages(s', s'')
    ensures SameMessages(s, s'')
  {
  }

  /** From the first transmission on: resends 1, 3, 7, 15 and 31 seconds later, and the end after 63. */
  lemma SilenceTakes63Seconds(sent: nat)
    ensures Schedule(sent + 10, 0) == [sent + 10, sent + 30, sent + 70, sent + 150, sent + 310, sent + 630]
  {
    BackoffDoubles(0, 0);
    assert Doubled(1) == 20 && Doubled(2) == 40 && Doubled(3) == 80 && Doubled(4) == 160 && Doubled(5) == 320;
    var r := sent + 10;
    assert Schedule(r + 620, 5) == [r + 620];
    assert Schedule(r + 300, 4) == [r + 300, r + 620];
    assert Schedule(r + 140, 3) == [r + 140, r + 300, r + 620];
    assert Schedule(r + 60, 2) == [r + 60, r + 140, r + 300, r + 620];
    assert Schedule(r + 20, 1) == [r + 20, r + 60, r + 140, r + 300, r + 620];
  }
}
