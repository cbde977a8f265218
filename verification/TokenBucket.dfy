/** One token bucket filter as a value: what it lets through, when and in which order. */
module TokenBucket {
  import opened Common

  type Packet = seq<Byte>

  const TBF_MAX_QUEUE := 2
  const TBF_MAX_SIZE := 3000

  /** The counters are 32 bits wide and wrap. */
  datatype Stats = Stats(bQueued: U32, bSent: U32, bDropped: U32,
                         pQueued: U32, pSent: U32, pDropped: U32, pDelayed: U32)

  /** `sends` is false for a filter without a send routine. Time is in tenths of a second. */
  datatype Bucket = Bucket(credit: int, lasttime: int, queue: seq<Packet>,
                           max: nat, rate: nat, sends: bool, stats: Stats)

  predicate Valid(b: Bucket) {
    && 0 <= b.credit <= b.max && |b.queue| <= TBF_MAX_QUEUE && forall p :: p in b.queue ==> |p| < TBF_MAX_SIZE
  }

  function Plus(x: U32, n: nat): U32 { (x + n) % WORD }

  // ---- one step ----

  function Refilled(b: Bucket, now: int): Bucket {
    b.(credit := Min(b.credit + (now - b.lasttime) * b.rate / 10, b.max), lasttime := now)
  }

  /** The account of a packet that leaves: sent, or dropped for want of a routine to send it. */
  function Left(s: Stats, sends: bool, n: nat): Stats {
    if sends then s.(bSent := Plus(s.bSent, n), pSent := Plus(s.pSent, 1)) else Refused(s, n)
  }

  function Refused(s: Stats, n: nat): Stats { s.(bDropped := Plus(s.bDropped, n), pDropped := Plus(s.pDropped, 1)) }

  function Arrived(s: Stats, n: nat): Stats { s.(bQueued := Plus(s.bQueued, n), pQueued := Plus(s.pQueued, 1)) }

  function Popped(b: Bucket): Bucket
    requires b.queue != []
  {
    b.(credit := b.credit - |b.queue[0]|, queue := b.queue[1..], stats := Left(b.stats, b.sends, |b.queue[0]|))
  }

  /** How many of the waiting packets the credit covers. */
  function Covered(queue: seq<Packet>, credit: int): (n: nat)
    ensures n <= |queue|
  {
    if queue != [] && credit >= |queue[0]| then 1 + Covered(queue[1..], credit - |queue[0]|) else 0
  }

  function Drained(b: Bucket): Bucket
    decreases |b.queue|
  {
    if b.queue != [] && b.credit >= |b.queue[0]| then Drained(Popped(b)) else b
  }

  /** tbf_run_queue, and the packets it lets go. */
  function Run(b: Bucket, now: int): Bucket { Drained(Refilled(b, now)) }

  function RunOut(b: Bucket, now: int): seq<Packet> { Leaving(Refilled(b, now)) }

  function Leaving(b: Bucket): seq<Packet> { b.queue[..Covered(b.queue, b.credit)] }

  datatype Verdict = Sent | Queued | Dropped

  function Judge(b: Bucket, p: Packet): Verdict {
    if b.queue == [] && b.credit > |p| then Sent
    else if |b.queue| >= TBF_MAX_QUEUE || |p| >= TBF_MAX_SIZE then Dropped
    else Queued
  }

  function Taken(b: Bucket, p: Packet): Bucket {
    var s := Arrived(b.stats, |p|);
    match Judge(b, p)
    case Sent => b.(credit := b.credit - |p|, stats := Left(s, b.sends, |p|))
    case Queued => b.(queue := b.queue + [p], stats := s.(pDelayed := Plus(s.pDelayed, 1)))
    case Dropped => b.(stats := Refused(s, |p|))
  }

  /** tbf_queue_packet: the waiting packets first, then the new one. */
  function Offered(b: Bucket, p: Packet, now: int): Bucket { Taken(Run(b, now), p) }

  // ---- runs ----

  /** The timer runs the queue, or a packet is offered. */
  datatype Event = Tick(now: int) | Offer(now: int, p: Packet)

  function Step(b: Bucket, e: Event): Bucket { if e.Tick? then Run(b, e.now) else Offered(b, e.p, e.now) }

  /** What a step lets go, and what it takes in for good. */
  function Out(b: Bucket, e: Event): seq<Packet> {
    RunOut(b, e.now) + if e.Offer? && Judge(Run(b, e.now), e.p) == Sent then [e.p] else []
  }

  function Accepted(b: Bucket, e: Event): seq<Packet> {
    if e.Offer? && Judge(Run(b, e.now), e.p) != Dropped then [e.p] else []
  }

  function After(b: Bucket, es: seq<Event>): Bucket
    decreases |es|
  {
    if es == [] then b else After(Step(b, es[0]), es[1..])
  }

  function OutAll(b: Bucket, es: seq<Event>): seq<Packet>
    decreases |es|
  {
    if es == [] then [] else Out(b, es[0]) + OutAll(Step(b, es[0]), es[1..])
  }

  function AcceptedAll(b: Bucket, es: seq<Event>): seq<Packet>
    decreases |es|
  {
    if es == [] then [] else Accepted(b, es[0]) + AcceptedAll(Step(b, es[0]), es[1..])
  }

  function Bytes(ps: seq<Packet>): nat { if ps == [] then 0 else |ps[0]| + Bytes(ps[1..]) }

  /** Time does not run backwards. */
  predicate Timely(t0: int, es: seq<Event>, t1: int)
    decreases |es|
  {
    if es == [] then t0 <= t1 else t0 <= es[0].now && Timely(es[0].now, es[1..], t1)
  }

  lemma {:induction false} BytesOfSum(a: seq<Packet>, b: seq<Packet>)
    ensures Bytes(a + b) == Bytes(a) + Bytes(b)
  {
    if a == [] {
      assert a + b == b;
    } else {
      BytesOfSum(a[1..], b);
      assert (a + b)[1..] == a[1..] + b;
    }
  }

  // ---- draining ----

  /** Exactly the covered packets leave, in order, and pay for it. */
  lemma {:induction false} DrainedIs(b: Bucket)
    ensures var n, d := Covered(b.queue, b.credit), Drained(b);
            && d == b.(queue := b.queue[n..], credit := b.credit - Bytes(b.queue[..n]), stats := d.stats)
            && (d.queue != [] ==> d.credit < |d.queue[0]|)
            && (b.credit >= 0 ==> d.credit >= 0)
    decreases |b.queue|
  {
    if b.queue != [] && b.credit >= |b.queue[0]| {
      DrainedIs(Popped(b));
      var n := Covered(b.queue, b.credit);
      assert b.queue[..n][1..] == b.queue[1..][..n - 1];
    }
  }

  /** Of what was queued, modulo the width of the counters, everything was sent, dropped or is held. */
  predicate Even(queued: U32, sent: U32, dropped: U32, held: nat) {
    (sent + dropped + held - queued) % WORD == 0
  }

  predicate Balanced(b: Bucket) {
    && Even(b.stats.bQueued, b.stats.bSent, b.stats.bDropped, Bytes(b.queue))
    && Even(b.stats.pQueued, b.stats.pSent, b.stats.pDropped, |b.queue|)
  }

  lemma Shift(a: int, k: int)
    ensures (a - k * WORD) % WORD == a % WORD
  {
  }

  lemma Leaves(q: U32, s: U32, d: U32, held: nat, n: nat)
    requires Even(q, s, d, held + n)
    ensures Even(q, Plus(s, n), d, held) && Even(q, s, Plus(d, n), held)
  {
    Shift(s + d + held + n - q, (s + n) / WORD);
    Shift(s + d + held + n - q, (d + n) / WORD);
  }

  lemma Comes(q: U32, s: U32, d: U32, held: nat, n: nat)
    requires Even(q, s, d, held)
    ensures Even(Plus(q, n), s, d, held + n)
  {
    Shift(s + d + held - q, -((q + n) / WORD));
  }

  lemma {:induction false} DrainedBalances(b: Bucket)
    requires Balanced(b)
    ensures Balanced(Drained(b))
    decreases |b.queue|
  {
    hide Plus, Even;
    if b.queue != [] && b.credit >= |b.queue[0]| {
      Leaves(b.stats.bQueued, b.stats.bSent, b.stats.bDropped, Bytes(b.queue[1..]), |b.queue[0]|);
      Leaves(b.stats.pQueued, b.stats.pSent, b.stats.pDropped, |b.queue| - 1, 1);
      DrainedBalances(Popped(b));
    }
  }

  // ---- what every step keeps ----

  lemma Refill(b: Bucket, now: int)
    requires Valid(b) && b.lasttime <= now
    ensures var r := Refilled(b, now);
            && Valid(r) && r == b.(credit := r.credit, lasttime := now) && b.credit <= r.credit
            && 10 * r.credit <= 10 * b.credit + b.rate * (now - b.lasttime)
  {
    assert (now - b.lasttime) * b.rate >= 0;
  }

  /** What running the queue does: a prefix of the queue leaves, paid from the refilled credit, and what
      stays cannot be paid for. */
  lemma RunIs(b: Bucket, now: int)
    requires Valid(b) && b.lasttime <= now
    ensures var n, r, d := |RunOut(b, now)|, Refilled(b, now), Run(b, now);
            && RunOut(b, now) + d.queue == b.queue
            && d.credit == r.credit - Bytes(RunOut(b, now)) && d.lasttime == now
            && (d.queue != [] ==> d.credit < |d.queue[0]|)
            && d.max == b.max && d.rate == b.rate && d.sends == b.sends && Valid(d)
            && 10 * (d.credit + Bytes(RunOut(b, now))) <= 10 * b.credit + b.rate * (now - b.lasttime)
  {
    hide Refilled, Drained, Covered;
    Refill(b, now);
    DrainedIs(Refilled(b, now));
  }

  lemma RunBalances(b: Bucket, now: int)
    requires Balanced(b)
    ensures Balanced(Run(b, now))
  {
    hide Drained;
    DrainedBalances(Refilled(b, now));
  }

  /** Credit stays between 0 and the maximum, the queue within its slots, and every packet and byte that
      ever came in was sent, was dropped or is still held. */
  lemma StepKeeps(b: Bucket, e: Event)
    requires Valid(b) && b.lasttime <= e.now
    ensures Valid(Step(b, e)) && Step(b, e).lasttime == e.now
    ensures Step(b, e).max == b.max && Step(b, e).rate == b.rate && Step(b, e).sends == b.sends
    ensures Balanced(b) ==> Balanced(Step(b, e))
  {
    hide Run, RunOut, Plus, Balanced;
    RunIs(b, e.now);
    if Balanced(b) { RunBalances(b, e.now); }
    if e.Offer? && Balanced(b) { TakenBalances(Run(b, e.now), e.p); }
  }

  lemma TakenBalances(b: Bucket, p: Packet)
    requires Balanced(b)
    ensures Balanced(Taken(b, p))
  {
    hide Plus, Bytes, Even;
    var s, held, n := b.stats, Bytes(b.queue), |b.queue|;
    var a := Arrived(s, |p|);
    BytesOfSum(b.queue, [p]);
    OnePacket(p);
    Comes(s.bQueued, s.bSent, s.bDropped, held, |p|);
    Comes(s.pQueued, s.pSent, s.pDropped, n, 1);
    Leaves(a.bQueued, s.bSent, s.bDropped, held, |p|);
    Leaves(a.pQueued, s.pSent, s.pDropped, n, 1);
  }

  lemma OnePacket(p: Packet)
    ensures Bytes([p]) == |p|
  {
  }

  /** Nothing is reordered, duplicated or lost on the way. */
  lemma StepInOrder(b: Bucket, e: Event)
    requires Valid(b) && b.lasttime <= e.now
    ensures Out(b, e) + Step(b, e).queue == b.queue + Accepted(b, e)
  {
    hide Run, RunOut, Plus;
    RunIs(b, e.now);
  }

  lemma StepPays(b: Bucket, e: Event)
    requires Valid(b) && b.lasttime <= e.now
    ensures 10 * (Step(b, e).credit + Bytes(Out(b, e))) <= 10 * b.credit + b.rate * (e.now - b.lasttime)
    ensures Step(b, e).credit + Bytes(Out(b, e)) <= b.max
  {
    hide Run, RunOut, Plus, Bytes;
    RunIs(b, e.now);
    Refill(b, e.now);
    if e.Offer? {
      BytesOfSum(RunOut(b, e.now), [e.p]);
      OnePacket(e.p);
    }
    assert RunOut(b, e.now) + [] == RunOut(b, e.now);
  }

  // ---- what one call does, told without its branches ----

  /** Counters after `out` has left: it was sent, or dropped if there is no routine to send it. */
  ghost predicate CountsOut(s: Stats, s': Stats, sends: bool, out: seq<Packet>) {
    && s'.bQueued == s.bQueued && s'.pQueued == s.pQueued && s'.pDelayed == s.pDelayed
    && s'.bSent == (if sends then (s.bSent + Bytes(out)) % WORD else s.bSent)
    && s'.pSent == (if sends then (s.pSent + |out|) % WORD else s.pSent)
    && s'.bDropped == (if sends then s.bDropped else (s.bDropped + Bytes(out)) % WORD)
    && s'.pDropped == (if sends then s.pDropped else (s.pDropped + |out|) % WORD)
  }

  lemma CountsJoin(s: Stats, s': Stats, s'': Stats, sends: bool, x: seq<Packet>, y: seq<Packet>)
    requires CountsOut(s, s', sends, x) && CountsOut(s', s'', sends, y)
    ensures CountsOut(s, s'', sends, x + y)
  {
    hide Bytes;
    BytesOfSum(x, y);
    PlusPlus(s.bSent, Bytes(x), Bytes(y));
    PlusPlus(s.pSent, |x|, |y|);
    PlusPlus(s.bDropped, Bytes(x), Bytes(y));
    PlusPlus(s.pDropped, |x|, |y|);
  }

  lemma PlusPlus(s: U32, x: nat, y: nat)
    ensures ((s + x) % WORD + y) % WORD == (s + (x + y)) % WORD
  {
    Shift(s + x + y, (s + x) / WORD);
  }

  lemma CountsNone(s: Stats, sends: bool)
    ensures CountsOut(s, s, sends, [])
  {
  }

  lemma {:induction false} DrainedCounts(b: Bucket)
    ensures CountsOut(b.stats, Drained(b).stats, b.sends, Leaving(b))
    decreases |b.queue|
  {
    hide CountsOut;
    if b.queue != [] && b.credit >= |b.queue[0]| {
      var c := Popped(b);
      DrainedCounts(c);
      PoppedCounts(b);
      CountsJoin(b.stats, c.stats, Drained(c).stats, b.sends, [b.queue[0]], Leaving(c));
      assert [b.queue[0]] + Leaving(c) == Leaving(b);
    } else {
      CountsNone(b.stats, b.sends);
      assert Leaving(b) == [];
    }
  }

  lemma PoppedCounts(b: Bucket)
    requires b.queue != []
    ensures CountsOut(b.stats, Popped(b).stats, b.sends, [b.queue[0]])
  {
    OnePacket(b.queue[0]);
  }

  /** The timer, or the first thing a packet finds: the credit grows with the time, up to the bucket; the packets it
      then covers leave, first come first, and are counted; the first that stays is not covered. */
  lemma TickIs(b: Bucket, now: int)
    requires Valid(b) && b.lasttime <= now
    ensures var c, out := Step(b, Tick(now)), Out(b, Tick(now));
            && out + c.queue == b.queue && c.lasttime == now && c.max == b.max && c.rate == b.rate && c.sends == b.sends
            && c.credit + Bytes(out) == Min(b.credit + (now - b.lasttime) * b.rate / 10, b.max) && c.credit >= 0
            && (c.queue != [] ==> c.credit < |c.queue[0]|)
            && CountsOut(b.stats, c.stats, b.sends, out)
  {
    hide Drained, Covered, CountsOut, Bytes;
    RunIs(b, now);
    DrainedCounts(Refilled(b, now));
    assert RunOut(b, now) + [] == RunOut(b, now);
  }

  /** A packet that is offered leaves at once if and only if nothing waits after the run and the credit then exceeds
      its size. It is lost if and only if it does not, and two packets wait or it has 3000 bytes or more. Otherwise
      it is the last to wait. */
  lemma OfferIs(b: Bucket, p: Packet, now: int)
    requires Valid(b) && b.lasttime <= now
    ensures var r, e := Step(b, Tick(now)), Offer(now, p);
            var c, leaves := Step(b, e), r.queue == [] && r.credit > |p|;
            var lost := !leaves && (|r.queue| >= 2 || |p| >= 3000);
            && Out(b, e) == Out(b, Tick(now)) + (if leaves then [p] else [])
            && c.queue == r.queue + (if leaves || lost then [] else [p])
            && Accepted(b, e) == (if lost then [] else [p])
            && c.credit == r.credit - (if leaves then |p| else 0)
            && c.lasttime == now && c.max == b.max && c.rate == b.rate && c.sends == b.sends
            && c.stats.pQueued == (r.stats.pQueued + 1) % WORD && c.stats.bQueued == (r.stats.bQueued + |p|) % WORD
            && (c.stats.pSent, c.stats.bSent) ==
               (if leaves && b.sends then ((r.stats.pSent + 1) % WORD, (r.stats.bSent + |p|) % WORD)
                else (r.stats.pSent, r.stats.bSent))
            && (c.stats.pDropped, c.stats.bDropped) ==
               (if lost || (leaves && !b.sends) then ((r.stats.pDropped + 1) % WORD, (r.stats.bDropped + |p|) % WORD)
                else (r.stats.pDropped, r.stats.bDropped))
            && c.stats.pDelayed == (if leaves || lost then r.stats.pDelayed else (r.stats.pDelayed + 1) % WORD)
  {
    hide Run, RunOut, Judge, Taken;
    RunIs(b, now);
    var r := Run(b, now);
    JudgeIs(r, p);
    TakenIs(r, p);
    TakenCounts(r, p);
    assert RunOut(b, now) + [] == RunOut(b, now);
    assert r.queue + [] == r.queue;
  }

  lemma JudgeIs(r: Bucket, p: Packet)
    ensures var leaves := r.queue == [] && r.credit > |p|;
            && (Judge(r, p) == Sent <==> leaves)
            && (Judge(r, p) == Dropped <==> !leaves && (|r.queue| >= 2 || |p| >= 3000))
  {
  }

  lemma TakenIs(r: Bucket, p: Packet)
    ensures var c, v := Taken(r, p), Judge(r, p);
            && c.queue == (if v == Queued then r.queue + [p] else r.queue)
            && c.credit == r.credit - (if v == Sent then |p| else 0)
            && c.lasttime == r.lasttime && c.max == r.max && c.rate == r.rate && c.sends == r.sends
  {
    hide Plus;
  }

  lemma TakenCounts(r: Bucket, p: Packet)
    ensures var c, v := Taken(r, p), Judge(r, p); var gone := v == Dropped || (v == Sent && !r.sends);
            && c.stats.pQueued == (r.stats.pQueued + 1) % WORD && c.stats.bQueued == (r.stats.bQueued + |p|) % WORD
            && c.stats.pSent == (if v == Sent && r.sends then (r.stats.pSent + 1) % WORD else r.stats.pSent)
            && c.stats.bSent == (if v == Sent && r.sends then (r.stats.bSent + |p|) % WORD else r.stats.bSent)
            && c.stats.pDropped == (if gone then (r.stats.pDropped + 1) % WORD else r.stats.pDropped)
            && c.stats.bDropped == (if gone then (r.stats.bDropped + |p|) % WORD else r.stats.bDropped)
            && c.stats.pDelayed == (if v == Queued then (r.stats.pDelayed + 1) % WORD else r.stats.pDelayed)
  {
    hide Judge;
  }

  // ---- main results ----

  /** Over every run the state stays valid and the books balance. */
  lemma {:induction false} RunKeeps(b: Bucket, es: seq<Event>, t1: int)
    requires Valid(b) && Balanced(b) && Timely(b.lasttime, es, t1)
    ensures Valid(After(b, es)) && Balanced(After(b, es)) && After(b, es).max == b.max
    decreases |es|
  {
    hide Step, Balanced, Valid;
    if es != [] {
      StepKeeps(b, es[0]);
      RunKeeps(Step(b, es[0]), es[1..], t1);
    }
  }

  /** First in, first out: what has left, followed by what still waits, is what waited at first followed
      by what was taken in. */
  lemma {:induction false} FirstInFirstOut(b: Bucket, es: seq<Event>, t1: int)
    requires Valid(b) && Timely(b.lasttime, es, t1)
    ensures OutAll(b, es) + After(b, es).queue == b.queue + AcceptedAll(b, es)
    decreases |es|
  {
    hide Step, Out, Accepted, Valid;
    if es != [] {
      var c := Step(b, es[0]);
      StepKeeps(b, es[0]);
      StepInOrder(b, es[0]);
      FirstInFirstOut(c, es[1..], t1);
      calc {
        Out(b, es[0]) + OutAll(c, es[1..]) + After(c, es[1..]).queue;
        Out(b, es[0]) + (OutAll(c, es[1..]) + After(c, es[1..]).queue);
        Out(b, es[0]) + (c.queue + AcceptedAll(c, es[1..]));
        Out(b, es[0]) + c.queue + AcceptedAll(c, es[1..]);
        b.queue + Accepted(b, es[0]) + AcceptedAll(c, es[1..]);
        b.queue + (Accepted(b, es[0]) + AcceptedAll(c, es[1..]));
      }
    }
  }

  /** From the last refill on, no more leaves than the credit at hand and the rate allow. */
  lemma {:induction false} SpendingBound(b: Bucket, es: seq<Event>, t1: int)
    requires Valid(b) && Timely(b.lasttime, es, t1)
    ensures 10 * Bytes(OutAll(b, es)) <= 10 * b.credit + b.rate * (t1 - b.lasttime)
    decreases |es|
  {
    hide Step, Out, Valid, Bytes;
    if es == [] {
      NothingOut();
      Earned(b.rate, b.lasttime, b.lasttime, t1);
      CreditIs(b);
    } else {
      var c := Step(b, es[0]);
      StepKeeps(b, es[0]);
      StepPays(b, es[0]);
      SpendingBound(c, es[1..], t1);
      BytesOfSum(Out(b, es[0]), OutAll(c, es[1..]));
      assert b.rate * (t1 - c.lasttime) + b.rate * (c.lasttime - b.lasttime) == b.rate * (t1 - b.lasttime);
    }
  }

  lemma NothingOut()
    ensures Bytes([]) == 0
  {
  }

  lemma CreditIs(b: Bucket)
    requires Valid(b)
    ensures 0 <= b.credit <= b.max
  {
  }

  /** The rate: in any interval [t0, t1] at most a full bucket leaves and what the rate adds to it, however
      long the filter was idle before. */
  lemma RateBound(b: Bucket, es: seq<Event>, t0: int, t1: int)
    requires Valid(b) && b.lasttime <= t0 && Timely(t0, es, t1)
    ensures Bytes(OutAll(b, es)) <= b.max + b.rate * (t1 - t0) / 10
  {
    hide Step, Out, Valid, Bytes;
    TimelyOrder(t0, es, t1);
    Earned(b.rate, t0, t0, t1);
    CreditIs(b);
    if es == [] {
      NothingOut();
    } else {
      var c := Step(b, es[0]);
      StepKeeps(b, es[0]);
      StepPays(b, es[0]);
      TimelyOrder(es[0].now, es[1..], t1);
      SpendingBound(c, es[1..], t1);
      BytesOfSum(Out(b, es[0]), OutAll(c, es[1..]));
      Earned(b.rate, t0, c.lasttime, t1);
    }
  }

  lemma Earned(rate: nat, t0: int, t: int, t1: int)
    requires t0 <= t <= t1
    ensures 0 <= rate * (t1 - t) <= rate * (t1 - t0)
  {
    assert rate * (t1 - t0) == rate * (t1 - t) + rate * (t - t0);
  }

  lemma {:induction false} TimelyOrder(t0: int, es: seq<Event>, t1: int)
    requires Timely(t0, es, t1)
    ensures t0 <= t1
    decreases |es|
  {
    if es != [] { TimelyOrder(es[0].now, es[1..], t1); }
  }

  // ---- progress ----

  /** The timer alone, run at the times `ts`. */
  function Ticked(b: Bucket, ts: seq<int>): Bucket
    decreases |ts|
  {
    if ts == [] then b else Ticked(Run(b, ts[0]), ts[1..])
  }

  /** The timer runs when the clock has changed, so the times increase, by one or more at once. */
  predicate Increasing(t0: int, ts: seq<int>)
    decreases |ts|
  {
    ts == [] || (t0 < ts[0] && Increasing(ts[0], ts[1..]))
  }

  /** What one gap between runs is worth; the fraction is lost. */
  function Gain(rate: nat, gap: nat): nat { gap * rate / 10 }

  /** What the rate earns over the times `ts`, gap by gap. */
  function Earnings(rate: nat, t0: int, ts: seq<int>): nat
    requires Increasing(t0, ts)
    decreases |ts|
  {
    if ts == [] then 0 else Gain(rate, ts[0] - t0) + Earnings(rate, ts[0], ts[1..])
  }

  /** As long as nothing leaves, a run adds what the gap is worth. */
  lemma OneTick(b: Bucket, now: int)
    requires Valid(b) && b.queue != [] && b.lasttime < now
    ensures var credit := Min(b.credit + Gain(b.rate, now - b.lasttime), b.max);
            && Valid(Run(b, now)) && |Run(b, now).queue| <= |b.queue|
            && (credit < |b.queue[0]| ==> Run(b, now) == b.(credit := credit, lasttime := now))
            && (credit >= |b.queue[0]| ==> |Run(b, now).queue| < |b.queue|)
  {
    RunIs(b, now);
    DrainedIs(Refilled(b, now));
  }

  lemma {:induction false} TickedShrinks(b: Bucket, ts: seq<int>)
    requires Valid(b) && Increasing(b.lasttime, ts)
    ensures |Ticked(b, ts).queue| <= |b.queue|
    decreases |ts|
  {
    hide Run, Valid;
    if ts != [] {
      RunIs(b, ts[0]);
      TickedShrinks(Run(b, ts[0]), ts[1..]);
    }
  }

  /** Whenever the timer runs, exactly: the first packet leaves if and only if it is no larger than the bucket
      and the credit, with what every gap earns, covers it. */
  lemma {:induction false} LeavesIff(b: Bucket, ts: seq<int>)
    requires Valid(b) && b.queue != [] && Increasing(b.lasttime, ts)
    ensures Ticked(b, ts).queue != b.queue <==>
            ts != [] && |b.queue[0]| <= b.max && b.credit + Earnings(b.rate, b.lasttime, ts) >= |b.queue[0]|
    decreases |ts|
  {
    hide Run, Gain, Valid;
    if ts != [] {
      var c := Run(b, ts[0]);
      OneTick(b, ts[0]);
      if |c.queue| < |b.queue| {
        RunIs(b, ts[0]);
        TickedShrinks(c, ts[1..]);
        CreditIs(b);
      } else {
        LeavesIff(c, ts[1..]);
      }
    }
  }

  predicate GapsWithin(t0: int, ts: seq<int>, gap: nat)
    decreases |ts|
  {
    ts == [] || (ts[0] - t0 <= gap && GapsWithin(ts[0], ts[1..], gap))
  }

  /** A gap that is worth less than a byte earns nothing, however often. */
  lemma {:induction false} SmallGapsEarnNothing(rate: nat, t0: int, ts: seq<int>, gap: nat)
    requires Increasing(t0, ts) && GapsWithin(t0, ts, gap) && gap * rate < 10
    ensures Earnings(rate, t0, ts) == 0
    decreases |ts|
  {
    if ts != [] {
      LessTimesRate(ts[0] - t0, gap, rate);
      SmallGapsEarnNothing(rate, ts[0], ts[1..], gap);
    }
  }

  lemma LessTimesRate(x: nat, gap: nat, rate: nat)
    requires x <= gap
    ensures x * rate <= gap * rate
  {
  }

  /** The timer run every `gap` tenths of a second earns at least a byte each time. */
  lemma {:induction false} Spaced(rate: nat, t0: int, gap: nat, n: nat) returns (ts: seq<int>)
    requires gap > 0 && gap * rate >= 10
    ensures |ts| == n && Increasing(t0, ts) && GapsWithin(t0, ts, gap) && Earnings(rate, t0, ts) >= n
    decreases n
  {
    ts := [];
    if n > 0 {
      var rest := Spaced(rate, t0 + gap, gap, n - 1);
      ts := [t0 + gap] + rest;
      assert ts[1..] == rest;
      AtLeastOne(rate, gap);
      assert Earnings(rate, t0, ts) == Gain(rate, gap) + Earnings(rate, t0 + gap, rest);
    }
  }

  lemma AtLeastOne(rate: nat, gap: nat)
    requires gap * rate >= 10
    ensures Gain(rate, gap) >= 1
  {
  }

  /** The timer, run with gaps of at most `gap` tenths of a second, can get the first packet out if and only if
      the credit covers it already, or it is no larger than the bucket and such a gap earns a byte. */
  lemma StallsIff(b: Bucket, gap: nat)
    requires Valid(b) && b.queue != [] && gap > 0
    ensures (exists ts ::
               Increasing(b.lasttime, ts) && GapsWithin(b.lasttime, ts, gap) && Ticked(b, ts).queue != b.queue) <==>
            |b.queue[0]| <= b.credit || (|b.queue[0]| <= b.max && gap * b.rate >= 10)
  {
    hide Ticked, Earnings, Run;
    if |b.queue[0]| <= b.credit || (|b.queue[0]| <= b.max && gap * b.rate >= 10) {
      var ts := Escape(b, gap);
    } else {
      forall ts | Increasing(b.lasttime, ts) && GapsWithin(b.lasttime, ts, gap)
        ensures Ticked(b, ts).queue == b.queue
      {
        LeavesIff(b, ts);
        if gap * b.rate < 10 { SmallGapsEarnNothing(b.rate, b.lasttime, ts, gap); }
      }
    }
  }

  lemma Escape(b: Bucket, gap: nat) returns (ts: seq<int>)
    requires Valid(b) && b.queue != [] && gap > 0
    requires |b.queue[0]| <= b.credit || (|b.queue[0]| <= b.max && gap * b.rate >= 10)
    ensures Increasing(b.lasttime, ts) && GapsWithin(b.lasttime, ts, gap) && Ticked(b, ts).queue != b.queue
  {
    hide Ticked, Earnings, Run;
    if |b.queue[0]| <= b.credit {
      ts := [b.lasttime + 1];
    } else {
      ts := Spaced(b.rate, b.lasttime, gap, |b.queue[0]|);
    }
    LeavesIff(b, ts);
  }

  /** throttle_session gives a filter of `kbits` a rate of 128 and a bucket of 256 bytes for each. */
  function Throttle(kbits: nat): Bucket {
    Bucket(kbits * 1024 / 8 * 2, 0, [], kbits * 1024 / 8 * 2, kbits * 1024 / 8, true, Stats(0, 0, 0, 0, 0, 0, 0))
  }

  /** A full-sized packet that has to wait under a limit of 5 kbit/s never leaves, whenever the timer runs. */
  lemma SlowThrottleStalls(p: Packet, ts: seq<int>)
    requires |p| == 1500 && Increasing(1, ts)
    ensures var b := Offered(Throttle(5), p, 1); b.queue == [p] && Ticked(b, ts).queue == [p]
  {
    var t := Throttle(5);
    RunIs(t, 1);
    LeavesIff(Offered(t, p, 1), ts);
  }
}
