/** The table of token bucket filters and the timer chain embedded in it: a circular doubly linked list
    of exactly the filters that hold packets. */
module FilterTable {
  import opened Common
  import opened TokenBucket

  /** The packets in the slots of a ring, oldest first. */
  function Waiting(packets: seq<Packet>, oldest: nat, queued: nat): (q: seq<Packet>)
    requires |packets| == TBF_MAX_QUEUE
    ensures |q| == queued
  {
    seq(queued, k => packets[(oldest + k) % TBF_MAX_QUEUE])
  }

  lemma WaitingPop(packets: seq<Packet>, oldest: nat, queued: nat)
    requires |packets| == TBF_MAX_QUEUE && oldest < TBF_MAX_QUEUE && queued > 0
    ensures Waiting(packets, oldest, queued)[0] == packets[oldest]
    ensures Waiting(packets, oldest, queued)[1..] == Waiting(packets, (oldest + 1) % TBF_MAX_QUEUE, queued - 1)
  {
    var a, b := Waiting(packets, oldest, queued)[1..], Waiting(packets, (oldest + 1) % TBF_MAX_QUEUE, queued - 1);
    forall k | 0 <= k < queued - 1
      ensures a[k] == b[k]
    {
      assert (oldest + (k + 1)) % TBF_MAX_QUEUE == ((oldest + 1) % TBF_MAX_QUEUE + k) % TBF_MAX_QUEUE;
    }
  }

  lemma WaitingPush(packets: seq<Packet>, oldest: nat, queued: nat, data: Packet)
    requires |packets| == TBF_MAX_QUEUE && queued < TBF_MAX_QUEUE
    ensures var i := (oldest + queued) % TBF_MAX_QUEUE;
            Waiting(packets[i := data], oldest, queued + 1) == Waiting(packets, oldest, queued) + [data]
  {
    var i := (oldest + queued) % TBF_MAX_QUEUE;
    var a, b := Waiting(packets[i := data], oldest, queued + 1), Waiting(packets, oldest, queued);
    forall k | 0 <= k < queued
      ensures a[k] == b[k]
    {
      assert (oldest + k) % TBF_MAX_QUEUE != i;
    }
  }

  /** A filter: its bucket, everything that has left it, how often its queue was run, and its owner. */
  datatype State = State(bucket: Bucket, gone: seq<Packet>, runs: nat, sid: U16)

  function Ran(s: State, now: int): State {
    State(Run(s.bucket, now), s.gone + RunOut(s.bucket, now), s.runs + 1, s.sid)
  }

  function Fresh(sid: U16, max_credit: nat, rate: nat, f: bool): State {
    State(Bucket(max_credit, 0, [], max_credit, rate, f, Stats(0, 0, 0, 0, 0, 0, 0)), [], 0, sid)
  }

  class Filter {
    var credit: int
    var lasttime: int
    var queued: nat
    var oldest: nat
    var sid: U16
    var max_credit: nat
    var rate: nat
    var sends: bool
    var prev: int
    var next: int
    var stats: Stats
    var sizes: seq<nat>
    var packets: seq<Packet>
    ghost var gone: seq<Packet>   // everything that has left this filter
    ghost var runs: nat           // how often its queue was run

    constructor ()
      ensures Sound() && sid == 0 && next == 0 && prev == 0 && queued == 0
    {
      credit, lasttime, queued, oldest, sid, max_credit, rate, sends, prev, next := 0, 0, 0, 0, 0, 0, 0, false, 0, 0;
      stats, sizes, packets := Stats(0, 0, 0, 0, 0, 0, 0), [0, 0], [[], []];
    }

    /** The slots of the ring that are in use agree with their sizes. */
    ghost predicate Ring()
      reads this`queued, this`oldest, this`sizes, this`packets
    {
      && |sizes| == |packets| == TBF_MAX_QUEUE && oldest < TBF_MAX_QUEUE && queued <= TBF_MAX_QUEUE
      && forall i :: 0 <= i < TBF_MAX_QUEUE && (i - oldest) % TBF_MAX_QUEUE < queued ==> sizes[i] == |packets[i]|
    }

    ghost function View(): (b: Bucket)
      requires Ring()
      reads this`queued, this`oldest, this`sizes, this`packets
      reads this`credit, this`lasttime, this`max_credit, this`rate, this`sends, this`stats
      ensures |b.queue| == queued && b.lasttime == lasttime && b.credit == credit
    {
      Bucket(credit, lasttime,
             Waiting(packets, oldest, queued),
             max_credit, rate, sends, stats)
    }

    ghost predicate Sound()
      reads this`queued, this`oldest, this`sizes, this`packets
      reads this`credit, this`lasttime, this`max_credit, this`rate, this`sends, this`stats
    {
      Ring() && TokenBucket.Valid(View())
    }

    /** All of the filter but its links. */
    ghost function Now(): (s: State)
      requires Ring()
      reads this`queued, this`oldest, this`sizes, this`packets
      reads this`credit, this`lasttime, this`max_credit, this`rate, this`sends, this`stats
      reads this`gone, this`runs, this`sid
      ensures s.bucket.lasttime == lasttime
    {
      State(View(), gone, runs, sid)
    }

    /** Counters and data are cleared. */
    method Clear()
      modifies this`lasttime, this`queued, this`oldest, this`prev, this`next, this`stats, this`sizes, this`packets,
               this`gone, this`runs
      ensures Ring() && lasttime == 0 && queued == 0 && prev == 0 && next == 0 && gone == [] && runs == 0
      ensures stats == Stats(0, 0, 0, 0, 0, 0, 0)
    {
      lasttime, queued, oldest, prev, next := 0, 0, 0, 0, 0;
      stats := Stats(0, 0, 0, 0, 0, 0, 0);
      sizes, packets, gone, runs := [0, 0], [[], []], [], 0;
    }

    /** A filter taken into use: the bucket starts full. */
    method Reset(sid: U16, max_credit: nat, rate: nat, f: bool)
      modifies this
      ensures Sound() && next == 0 && prev == 0 && queued == 0 && Now() == Fresh(sid, max_credit, rate, f)
      ensures this.sid == sid && credit == this.max_credit == max_credit && this.rate == rate && sends == f
    {
      hide Ring;
      Clear();
      this.sid := sid;
      credit := max_credit;
      this.max_credit := max_credit;
      this.rate := rate;
      sends := f;
    }

    /** A packet leaves: it is handed to the send routine, or dropped when there is none. */
    method Leave(data: Packet, size: nat)
      requires size == |data|
      modifies this`stats, this`gone
      ensures stats == Left(old(stats), sends, size) && gone == old(gone) + [data]
    {
      if sends {
        stats := stats.(bSent := Plus(stats.bSent, size), pSent := Plus(stats.pSent, 1));
      } else {
        stats := stats.(bDropped := Plus(stats.bDropped, size), pDropped := Plus(stats.pDropped, 1));
      }
      gone := gone + [data];
    }

    /** The oldest packet leaves and pays. */
    method Pop()
      requires Ring() && queued > 0
      modifies this`stats, this`gone, this`credit, this`oldest, this`queued
      ensures Ring() && View() == Popped(old(View())) && gone == old(gone) + [old(View()).queue[0]]
    {
      hide Waiting;
      WaitingPop(packets, oldest, queued);
      Leave(packets[oldest], sizes[oldest]);
      credit := credit - sizes[oldest];
      oldest := (oldest + 1) % TBF_MAX_QUEUE;
      queued := queued - 1;
    }

    /** Credit for the time that has passed. */
    method Earn(now: int)
      requires Ring()
      modifies this`credit, this`lasttime
      ensures Ring() && View() == Refilled(old(View()), now)
    {
      hide Waiting;
      credit := credit + (now - lasttime) * rate / 10;
      if credit > max_credit { credit := max_credit; }
      lasttime := now;
    }

    /** Every packet the credit covers leaves. */
    method Release()
      requires Ring()
      modifies this`stats, this`gone, this`credit, this`oldest, this`queued
      ensures Ring() && View() == Drained(old(View())) && gone == old(gone) + Leaving(old(View()))
    {
      hide Drained, Leaving, Waiting, Popped, Ring;
      ghost var r := View();
      while queued > 0 && credit >= Oldest()
        invariant Ring() && Drained(View()) == Drained(r) && gone + Leaving(View()) == old(gone) + Leaving(r)
        decreases queued
      {
        DrainStep(View());
        Pop();
      }
      DrainStop(View());
    }

    /** The first part of tbf_run_queue: credit for the time that has passed, then every packet it covers. */
    method Drain(now: int)
      requires Sound() && lasttime <= now
      modifies this`stats, this`gone, this`credit, this`lasttime, this`oldest, this`queued, this`runs
      ensures Sound() && View() == Run(old(View()), now)
      ensures gone == old(gone) + RunOut(old(View()), now) && runs == old(runs) + 1
    {
      hide Drained, Leaving, Refilled, Ring, View;
      RunIs(View(), now);
      runs := runs + 1;
      Earn(now);
      Release();
    }

    /** The size of the oldest packet. */
    function Oldest(): (n: nat)
      requires Ring() && queued > 0
      reads this`queued, this`oldest, this`sizes, this`packets
      reads this`credit, this`lasttime, this`max_credit, this`rate, this`sends, this`stats
      ensures n == |View().queue[0]|
    {
      sizes[oldest]
    }

    /** A packet is copied to the free slot behind the waiting ones. */
    method Push(data: Packet)
      requires Ring() && queued < TBF_MAX_QUEUE
      modifies this`sizes, this`packets, this`queued, this`stats
      ensures Ring() && View() == old(View()).(queue := old(View()).queue + [data], stats := stats)
      ensures stats == old(stats).(pDelayed := Plus(old(stats).pDelayed, 1))
    {
      hide Waiting;
      WaitingPush(packets, oldest, queued, data);
      var i := (oldest + queued) % TBF_MAX_QUEUE;
      packets := packets[i := data];
      sizes := sizes[i := |data|];
      queued := queued + 1;
      stats := stats.(pDelayed := Plus(stats.pDelayed, 1));
    }

    /** The rest of tbf_queue_packet, but for the timer chain: send, drop or queue one packet. */
    method Take(data: Packet) returns (v: Verdict)
      requires Sound() && (View().queue != [] ==> credit < |View().queue[0]|)
      modifies this`sizes, this`packets, this`queued, this`stats, this`credit, this`gone
      ensures Sound() && View() == Taken(old(View()), data)
      ensures v == Judge(old(View()), data) && gone == old(gone) + (if v == Sent then [data] else [])
    {
      var size := |data|;
      stats := stats.(bQueued := Plus(stats.bQueued, size), pQueued := Plus(stats.pQueued, 1));
      if queued == 0 && credit > size {
        credit := credit - size;
        Leave(data, size);
        return Sent;
      }
      if queued >= TBF_MAX_QUEUE {
        stats := stats.(pDropped := Plus(stats.pDropped, 1), bDropped := Plus(stats.bDropped, size));
        return Dropped;
      }
      if size >= TBF_MAX_SIZE {
        stats := stats.(pDropped := Plus(stats.pDropped, 1), bDropped := Plus(stats.bDropped, size));
        return Dropped;
      }
      Push(data);
      return Queued;
    }
  }

  // ---- the timer chain ----

  function Nexts(fs: seq<Filter>): (r: seq<int>)
    reads fs`next
    ensures |r| == |fs| && forall i :: 0 <= i < |fs| ==> r[i] == fs[i].next
  {
    if fs == [] then [] else Nexts(fs[..|fs| - 1]) + [fs[|fs| - 1].next]
  }

  function Prevs(fs: seq<Filter>): (r: seq<int>)
    reads fs`prev
    ensures |r| == |fs| && forall i :: 0 <= i < |fs| ==> r[i] == fs[i].prev
  {
    if fs == [] then [] else Prevs(fs[..|fs| - 1]) + [fs[|fs| - 1].prev]
  }

  function Succ(k: nat, n: nat): (j: nat)
    ensures n > 0 ==> j < n
  {
    if k + 1 < n then k + 1 else 0
  }

  function Pred(k: nat, n: nat): (j: nat)
    requires n > 0
    ensures k <= n ==> j < n
  {
    if k > 0 then k - 1 else n - 1
  }

  /** The links are those of a circle of `chain`, entered at its first element; all others have none. */
  ghost predicate Circle(next: seq<int>, prev: seq<int>, head: int, chain: seq<nat>) {
    && |next| == |prev|
    && head == (if chain == [] then -1 else chain[0])
    && (forall k :: 0 <= k < |chain| ==> 1 <= chain[k] < |next|)
    && (forall j, k :: 0 <= j < k < |chain| ==> chain[j] != chain[k])
    && (forall k :: 0 <= k < |chain| ==> next[chain[k]] == chain[Succ(k, |chain|)])
    && (forall k :: 0 <= k < |chain| ==> prev[chain[k]] == chain[Pred(k, |chain|)])
    && (forall i :: 0 <= i < |next| && i !in chain ==> next[i] == 0 && prev[i] == 0)
  }

  ghost predicate Chained(fs: seq<Filter>, head: int, chain: seq<nat>)
    reads fs`next, fs`prev
  {
    Circle(Nexts(fs), Prevs(fs), head, chain)
  }

  lemma CircleAt(next: seq<int>, prev: seq<int>, head: int, chain: seq<nat>, k: nat)
    requires Circle(next, prev, head, chain) && k < |chain|
    ensures |next| == |prev| && 1 <= chain[k] < |next| && (k == 0 ==> head == chain[k])
    ensures next[chain[k]] == chain[Succ(k, |chain|)] && prev[chain[k]] == chain[Pred(k, |chain|)]
  {
  }

  /** Each place in the circle is taken by another filter. */
  lemma CircleOnce(next: seq<int>, prev: seq<int>, head: int, chain: seq<nat>, i: nat, j: nat)
    requires Circle(next, prev, head, chain) && i < |chain| && j < |chain|
    ensures chain[i] == chain[j] <==> i == j
  {
  }

  lemma CircleOff(next: seq<int>, prev: seq<int>, head: int, chain: seq<nat>, i: nat)
    requires Circle(next, prev, head, chain) && i < |next| && i !in chain
    ensures |next| == |prev| && next[i] == 0 && prev[i] == 0
  {
  }

  lemma MakeCircle(next: seq<int>, prev: seq<int>, head: int, chain: seq<nat>)
    requires |next| == |prev| && head == if chain == [] then -1 else chain[0]
    requires forall k :: 0 <= k < |chain| ==>
               && 1 <= chain[k] < |next|
               && next[chain[k]] == chain[Succ(k, |chain|)] && prev[chain[k]] == chain[Pred(k, |chain|)]
    requires forall j, k :: 0 <= j < k < |chain| ==> chain[j] != chain[k]
    requires forall i :: 0 <= i < |next| && i !in chain ==> next[i] == 0 && prev[i] == 0
    ensures Circle(next, prev, head, chain)
  {
  }

  lemma CircleHead(next: seq<int>, prev: seq<int>, head: int, chain: seq<nat>)
    requires Circle(next, prev, head, chain)
    ensures if head == -1 then chain == []
            else chain != [] && |next| == |prev| && 1 <= head < |next| && 1 <= chain[|chain| - 1] < |next|
    ensures chain != [] ==> prev[head] == chain[|chain| - 1] && head == chain[0]
  {
    if chain != [] { CircleAt(next, prev, head, chain, 0); }
  }

  /** What linking in at the tail does. */
  ghost predicate LinkedIn(next: seq<int>, prev: seq<int>, id: nat, first: int, tail: int, next': seq<int>,
      prev': seq<int>)
  {
    && |next'| == |prev'| == |prev| == |next|
    && (forall i :: 0 <= i < |next| ==> next'[i] == if i == id then first else if i == tail then id else next[i])
    && (forall i :: 0 <= i < |next| ==> prev'[i] == if i == id then tail else if i == first then id else prev[i])
  }

  lemma AddedLinks(next: seq<int>, prev: seq<int>, head: int, chain: seq<nat>, id: nat, next': seq<int>,
      prev': seq<int>, k: nat)
    requires Circle(next, prev, head, chain) && k < |chain| && id !in chain
    requires LinkedIn(next, prev, id, head, chain[|chain| - 1], next', prev')
    ensures var c, n := chain + [id], |chain|;
            1 <= c[k] < |next| && next'[c[k]] == c[Succ(k, n + 1)] && prev'[c[k]] == c[Pred(k, n + 1)]
  {
    hide Circle;
    var n := |chain|;
    CircleAt(next, prev, head, chain, 0);
    CircleAt(next, prev, head, chain, k);
    CircleOnce(next, prev, head, chain, k, n - 1);
    CircleOnce(next, prev, head, chain, k, 0);
    Elsewhere(chain, id, k);
  }

  lemma AddedDistinct(chain: seq<nat>, id: nat)
    requires id !in chain && forall j, k :: 0 <= j < k < |chain| ==> chain[j] != chain[k]
    ensures var c := chain + [id]; forall j, k :: 0 <= j < k < |c| ==> c[j] != c[k]
  {
  }

  lemma CircleDistinct(next: seq<int>, prev: seq<int>, head: int, chain: seq<nat>)
    requires Circle(next, prev, head, chain)
    ensures |next| == |prev| && forall j, k :: 0 <= j < k < |chain| ==> chain[j] != chain[k]
  {
  }

  lemma AddedLast(next: seq<int>, prev: seq<int>, head: int, chain: seq<nat>, id: nat, next': seq<int>, prev': seq<int>)
    requires Circle(next, prev, head, chain) && 1 <= id < |next| && id !in chain
    requires var first, tail := if chain == [] then id else head, if chain == [] then id else chain[|chain| - 1];
             LinkedIn(next, prev, id, first, tail, next', prev')
    ensures var c, n := chain + [id], |chain|; next'[id] == c[Succ(n, n + 1)] && prev'[id] == c[Pred(n, n + 1)]
  {
    hide Circle;
    CircleDistinct(next, prev, head, chain);
    if chain != [] { CircleAt(next, prev, head, chain, 0); }
  }

  lemma AddedOff(next: seq<int>, prev: seq<int>, head: int, chain: seq<nat>, id: nat, next': seq<int>,
      prev': seq<int>, i: nat)
    requires Circle(next, prev, head, chain) && 1 <= id < |next| && id !in chain
    requires var first, tail := if chain == [] then id else head, if chain == [] then id else chain[|chain| - 1];
             LinkedIn(next, prev, id, first, tail, next', prev')
    requires i < |next| && i !in chain + [id]
    ensures next'[i] == 0 && prev'[i] == 0
  {
    hide Circle;
    var c, n := chain + [id], |chain|;
    assert id == c[n] && forall k :: 0 <= k < n ==> chain[k] == c[k];
    CircleOff(next, prev, head, chain, i);
    if n > 0 { CircleAt(next, prev, head, chain, 0); Elsewhere(chain, i, n - 1); }
  }

  lemma CircleAdded(next: seq<int>, prev: seq<int>, head: int, chain: seq<nat>, id: nat, next': seq<int>,
      prev': seq<int>)
    requires Circle(next, prev, head, chain) && 1 <= id < |next| && id !in chain
    requires var first, tail := if chain == [] then id else head, if chain == [] then id else chain[|chain| - 1];
             LinkedIn(next, prev, id, first, tail, next', prev')
    ensures Circle(next', prev', if chain == [] then id else head, chain + [id])
  {
    hide Circle;
    var c, n := chain + [id], |chain|;
    CircleDistinct(next, prev, head, chain);
    AddedDistinct(chain, id);
    AddedLast(next, prev, head, chain, id, next', prev');
    assert |next'| == |prev'| == |next|;
    hide LinkedIn;
    if n > 0 { CircleAt(next, prev, head, chain, 0); }
    forall k | 0 <= k <= n
      ensures 1 <= c[k] < |next| && next'[c[k]] == c[Succ(k, n + 1)] && prev'[c[k]] == c[Pred(k, n + 1)]
    {
      if k < n { AddedLinks(next, prev, head, chain, id, next', prev', k); }
    }
    forall i | 0 <= i < |next| && i !in c
      ensures next'[i] == 0 && prev'[i] == 0
    {
      AddedOff(next, prev, head, chain, id, next', prev', i);
    }
    MakeCircle(next', prev', if n == 0 then id else head, c);
  }

  /** What was off the chain stays off, and the filter that goes joins it. */
  lemma CutOff(next: seq<int>, prev: seq<int>, head: int, chain: seq<nat>, k: nat, next': seq<int>, prev': seq<int>)
    requires Circle(next, prev, head, chain) && k < |chain| && |next| == |prev| && chain[k] < |next|
    requires Unlinked(next, prev, chain[k], next', prev')
    ensures |next'| == |prev'| == |next|
    ensures var c := chain[..k] + chain[k + 1..];
            forall i :: 0 <= i < |next| && i !in c ==> next'[i] == 0 && prev'[i] == 0
  {
    hide Circle;
    var c, n := chain[..k] + chain[k + 1..], |chain|;
    CircleAt(next, prev, head, chain, k);
    forall i | 0 <= i < |next| && i !in c
      ensures next'[i] == 0 && prev'[i] == 0
    {
      if i != chain[k] {
        CutElse(chain, k, i);
        CircleOff(next, prev, head, chain, i);
        Elsewhere(chain, i, Succ(k, n));
        Elsewhere(chain, i, Pred(k, n));
      }
    }
  }

  lemma CircleCut(next: seq<int>, prev: seq<int>, head: int, chain: seq<nat>, k: nat, next': seq<int>, prev': seq<int>)
    requires Circle(next, prev, head, chain) && k < |chain| && |next| == |prev| && chain[k] < |next|
    requires Unlinked(next, prev, chain[k], next', prev')
    ensures var head' := if |chain| == 1 then -1 else if head == chain[k] then next[chain[k]] else head;
            Circle(next', prev', head', chain[..k] + chain[k + 1..])
  {
    hide Circle, Unlinked;
    var c := chain[..k] + chain[k + 1..];
    UnlinkedSize(next, prev, chain[k], next', prev');
    CutHead(next, prev, head, chain, k);
    forall j | 0 <= j < |c|
      ensures 1 <= c[j] < |next| && next'[c[j]] == c[Succ(j, |c|)] && prev'[c[j]] == c[Pred(j, |c|)]
    {
      CutLinks(next, prev, head, chain, k, next', prev', if j < k then j else j + 1);
    }
    CutDistinct(next, prev, head, chain, k);
    CutOff(next, prev, head, chain, k, next', prev');
    MakeCircle(next', prev', if |chain| == 1 then -1 else if head == chain[k] then next[chain[k]] else head, c);
  }

  /** The circle is then entered at the first of those that stay. */
  lemma CutHead(next: seq<int>, prev: seq<int>, head: int, chain: seq<nat>, k: nat)
    requires Circle(next, prev, head, chain) && k < |chain| && chain[k] < |next|
    ensures var c := chain[..k] + chain[k + 1..];
            (if |chain| == 1 then -1 else if head == chain[k] then next[chain[k]] else head) ==
            if c == [] then -1 else c[0]
  {
    hide Circle;
    CircleAt(next, prev, head, chain, k);
    CircleAt(next, prev, head, chain, 0);
    CircleOnce(next, prev, head, chain, 0, k);
  }

  lemma CutDistinct(next: seq<int>, prev: seq<int>, head: int, chain: seq<nat>, k: nat)
    requires Circle(next, prev, head, chain) && k < |chain|
    ensures var c := chain[..k] + chain[k + 1..]; forall i, j :: 0 <= i < j < |c| ==> c[i] != c[j]
  {
  }

  lemma UnlinkedSize(next: seq<int>, prev: seq<int>, id: nat, next': seq<int>, prev': seq<int>)
    requires |next| == |prev| && id < |next| && Unlinked(next, prev, id, next', prev')
    ensures |next'| == |prev'| == |next|
  {
  }

  lemma Elsewhere(chain: seq<nat>, i: nat, k: nat)
    requires i !in chain && k < |chain|
    ensures chain[k] != i
  {
  }

  lemma CutElse(chain: seq<nat>, k: nat, i: nat)
    requires k < |chain| && i != chain[k] && i !in chain[..k] + chain[k + 1..]
    ensures i !in chain
  {
    assert chain == chain[..k] + [chain[k]] + chain[k + 1..];
  }

  /** The neighbours of `id` are linked to each other, and `id` to nothing. */
  ghost predicate Unlinked(next: seq<int>, prev: seq<int>, id: nat, next': seq<int>, prev': seq<int>)
    requires |next| == |prev| && id < |next|
  {
    var a, z := prev[id], next[id];
    && |next'| == |prev'| == |next|
    && (forall i :: 0 <= i < |next| ==> next'[i] == if i == id then 0 else if i == a then z else next[i])
    && (forall i :: 0 <= i < |next| ==> prev'[i] == if i == id then 0 else if i == z then a else prev[i])
  }

  /** The links of the filter at place `o` after the one at `k` has gone. */
  lemma CutLinks(next: seq<int>, prev: seq<int>, head: int, chain: seq<nat>, k: nat, next': seq<int>,
      prev': seq<int>, o: nat)
    requires Circle(next, prev, head, chain) && k < |chain| && |next| == |prev| && chain[k] < |next|
    requires Unlinked(next, prev, chain[k], next', prev')
    requires o < |chain| && o != k
    ensures |next'| == |prev'| == |next|
    ensures var c := chain[..k] + chain[k + 1..]; var j := if o < k then o else o - 1;
            && c[j] == chain[o] && 1 <= c[j] < |next|
            && next'[c[j]] == c[Succ(j, |chain| - 1)] && prev'[c[j]] == c[Pred(j, |chain| - 1)]
  {
    hide Circle;
    var n := |chain|;
    CircleAt(next, prev, head, chain, k);
    CircleAt(next, prev, head, chain, o);
    CircleOnce(next, prev, head, chain, o, k);
    CircleOnce(next, prev, head, chain, o, Pred(k, n));
    CircleOnce(next, prev, head, chain, o, Succ(k, n));
  }

  ghost predicate Distinct(fs: seq<Filter>) { forall i, j :: 0 <= i < j < |fs| ==> fs[i] != fs[j] }

  ghost predicate Updated(before: seq<State>, after: seq<State>, i: nat, s: State) {
    i < |before| && after == before[i := s]
  }

  /** On the way round from `p` to `r`. */
  predicate Between(p: nat, r: nat, j: nat) { if p <= r then p <= j < r else j >= p || j < r }

  lemma NextPlace(p: nat, n: nat)
    requires p < n
    ensures (p + 1) % n == if p + 1 < n then p + 1 else 0
  {
  }

  method Allocate(n: nat) returns (fs: seq<Filter>)
    ensures |fs| == n && Distinct(fs) && fresh(fs)
    ensures forall i :: 0 <= i < n ==>
            fs[i].Sound() && fs[i].sid == 0 && fs[i].next == 0 && fs[i].prev == 0 && fs[i].queued == 0
  {
    hide Filter.Sound;
    fs := [];
    while |fs| < n
      invariant |fs| <= n && Distinct(fs) && fresh(fs)
      invariant forall i :: 0 <= i < |fs| ==>
                  fs[i].Sound() && fs[i].sid == 0 && fs[i].next == 0 && fs[i].prev == 0 && fs[i].queued == 0
    {
      var f := new Filter();
      fs := fs + [f];
    }
  }

  lemma NoChain(fs: seq<Filter>)
    requires forall i :: 0 <= i < |fs| ==> fs[i].next == 0 && fs[i].prev == 0
    ensures Chained(fs, -1, [])
  {
    hide Nexts, Prevs;
  }

  ghost function StatesOf(fs: seq<Filter>): (r: seq<State>)
    requires forall i :: 0 <= i < |fs| ==> fs[i].Ring()
    reads fs
    ensures |r| == |fs| && forall i :: 0 <= i < |fs| ==> r[i] == fs[i].Now()
  {
    if fs == [] then [] else StatesOf(fs[..|fs| - 1]) + [fs[|fs| - 1].Now()]
  }

  class Table {
    const filters: seq<Filter>
    var timer_chain: int
    var p: nat   // where the search for a free filter goes on
    ghost var chain: seq<nat>

    /** add_to_timer: at the tail. */
    method AddToTimer(id: nat)
      requires Distinct(filters) && Chained(filters, timer_chain, chain) && 1 <= id < |filters| && id !in chain
      modifies this`timer_chain, this`chain, filters`next, filters`prev
      ensures chain == old(chain) + [id] && Chained(filters, timer_chain, chain)
    {
      hide Nexts, Prevs, Circle;
      ghost var next, prev, n := Nexts(filters), Prevs(filters), |chain|;
      CircleHead(next, prev, timer_chain, chain);
      if timer_chain == -1 {
        filters[id].next, filters[id].prev := id, id;
        timer_chain := id;
      } else {
        filters[id].next := timer_chain;
        filters[id].prev := filters[timer_chain].prev;
        filters[filters[timer_chain].prev].next := id;
        filters[timer_chain].prev := id;
      }
      CircleAdded(next, prev, old(timer_chain), chain, id, Nexts(filters), Prevs(filters));
      chain := chain + [id];
    }

    /** del_from_timer */
    method DelFromTimer(id: nat, ghost k: nat)
      requires Distinct(filters) && Chained(filters, timer_chain, chain) && k < |chain| && id == chain[k]
      modifies this`timer_chain, this`chain, filters`next, filters`prev
      ensures chain == old(chain)[..k] + old(chain)[k + 1..] && Chained(filters, timer_chain, chain)
    {
      hide Nexts, Prevs, Circle;
      ghost var next, prev, n := Nexts(filters), Prevs(filters), |chain|;
      CircleAt(next, prev, timer_chain, chain, k);
      CircleAt(next, prev, timer_chain, chain, Succ(k, n));
      CircleAt(next, prev, timer_chain, chain, Pred(k, n));
      CircleOnce(next, prev, timer_chain, chain, k, Succ(k, n));
      CircleOnce(next, prev, timer_chain, chain, k, Pred(k, n));
      if filters[id].next == id {
        if timer_chain == id { timer_chain := -1; }
        filters[id].next, filters[id].prev := 0, 0;
      } else {
        filters[filters[id].next].prev := filters[id].prev;
        filters[filters[id].prev].next := filters[id].next;
        if timer_chain == id { timer_chain := filters[id].next; }
        filters[id].next, filters[id].prev := 0, 0;
      }
      CircleCut(next, prev, old(timer_chain), chain, k, Nexts(filters), Prevs(filters));
      chain := chain[..k] + chain[k + 1..];
    }

    /** On the chain are exactly the filters that are in use and hold packets. */
    ghost predicate Valid()
      reads this`timer_chain, this`chain, this`p, filters
    {
      && |filters| >= 1 && p < |filters| && filters[0].sid != 0 && Distinct(filters)
      && Chained(filters, timer_chain, chain)
      && (forall i :: 0 <= i < |filters| ==> filters[i].Sound())
      && (forall i :: 0 <= i < |filters| ==> (i in chain <==> Live(filters[i])))
    }

    /** On the chain are exactly the filters in use that hold packets. */
    lemma ChainIs(id: nat)
      requires Valid() && id < |filters|
      ensures id in chain <==> filters[id].sid != 0 && filters[id].queued > 0
    {
      hide Chained, Filter.Sound;
    }

    /** The same, but for what filter `id` has become. */
    ghost predicate ValidBut(id: nat)
      reads this`timer_chain, this`chain, this`p, filters
    {
      && |filters| >= 1 && p < |filters| && filters[0].sid != 0 && Distinct(filters)
      && Chained(filters, timer_chain, chain)
      && (forall i :: 0 <= i < |filters| ==> filters[i].Sound())
      && (forall i :: 0 <= i < |filters| && i != id ==> (i in chain <==> Live(filters[i])))
    }

    lemma Restored(id: nat)
      requires ValidBut(id) && id < |filters| && (id in chain <==> Live(filters[id]))
      ensures Valid()
    {
      hide Chained, Filter.Sound, Live;
    }

    /** A filter that holds packets and is not on the chain joins it. */
    method Join(id: nat)
      requires ValidBut(id) && 1 <= id < |filters| && id !in chain && Live(filters[id])
      modifies this`timer_chain, this`chain, filters`next, filters`prev
      ensures Valid() && chain == old(chain) + [id]
    {
      hide Chained, Filter.Sound, Live;
      AddToTimer(id);
    }

    /** One that no longer holds any, or is freed, leaves it. */
    method Leave(id: nat, ghost k: nat)
      requires ValidBut(id) && id < |filters| && k < |chain| && chain[k] == id && !Live(filters[id])
      modifies this`timer_chain, this`chain, filters`next, filters`prev
      ensures Valid() && chain == old(chain)[..k] + old(chain)[k + 1..]
    {
      hide Chained, Filter.Sound, Live;
      CutMembers(filters, timer_chain, chain, k);
      ghost var cut := chain[..k] + chain[k + 1..];
      assert id in cut <==> id in chain && id != chain[k];
      forall i | 0 <= i < |filters| && i != id
        ensures i in cut <==> Live(filters[i])
      {
        assert i in cut <==> i in chain;
      }
      DelFromTimer(id, k);
    }

    /** tbf_run_queue */
    method RunQueue(id: nat, now: int, ghost k: nat)
      requires Valid() && id < |filters| && filters[id].sid != 0 && filters[id].lasttime <= now
      requires id in chain ==> k < |chain| && chain[k] == id
      modifies this`timer_chain, this`chain, filters[id], filters`next, filters`prev
      ensures Valid() && filters[id].Now() == Ran(old(filters[id].Now()), now)
      ensures chain ==
              if id in old(chain) && filters[id].queued == 0 then old(chain)[..k] + old(chain)[k + 1..] else old(chain)
    {
      hide Run, RunOut, Chained, Filter.Ring, Filter.View, TokenBucket.Valid;
      RunIs(filters[id].View(), now);
      filters[id].Drain(now);
      assert ValidBut(id);
      OnChain(filters, timer_chain, chain, id);
      hide ValidBut, Valid;
      if filters[id].queued == 0 && filters[id].next != 0 {
        Leave(id, k);
      } else {
        Restored(id);
      }
    }

    /** The rest of tbf_queue_packet: a filter that now holds packets joins the chain. */
    method Admit(id: nat, data: Packet) returns (v: Verdict)
      requires Valid() && 1 <= id < |filters| && filters[id].sid != 0
      requires filters[id].queued > 0 ==> filters[id].credit < |filters[id].View().queue[0]|
      modifies this`timer_chain, this`chain, filters[id], filters`next, filters`prev
      ensures Valid() && v == Judge(old(filters[id].View()), data)
      ensures var s := old(filters[id].Now());
              filters[id].Now() ==
              State(Taken(s.bucket, data), s.gone + (if v == Sent then [data] else []), s.runs, s.sid)
    {
      hide Chained, Taken, Judge, Filter.Ring, Filter.View, TokenBucket.Valid;
      TakenQueue(filters[id].View(), data);
      v := filters[id].Take(data);
      assert ValidBut(id);
      OnChain(filters, timer_chain, chain, id);
      hide ValidBut, Valid;
      if v.Queued? && filters[id].next == 0 {
        Join(id);
      } else {
        Restored(id);
      }
    }

    /** A packet for a filter that is there: the queue is run first, then the packet is sent, queued or dropped. */
    method Accept(id: nat, data: Packet, now: int) returns (v: Verdict)
      requires Valid() && 1 <= id < |filters| && filters[id].lasttime <= now && filters[id].sid != 0
      modifies this`timer_chain, this`chain, filters[id], filters`next, filters`prev
      ensures Valid()
      ensures var s := old(filters[id].Now()); var e := Offer(now, data);
              && v == Judge(Run(s.bucket, now), data)
              && filters[id].Now() == State(Step(s.bucket, e), s.gone + Out(s.bucket, e), s.runs + 1, s.sid)
    {
      hide Run, RunOut, Chained, Taken, Judge, Filter.Ring, Filter.View, TokenBucket.Valid, Valid;
      IsSound(id);
      ghost var k := if id in chain then Place(chain, id) else 0;
      RunIs(filters[id].View(), now);
      RunQueue(id, now, k);
      IsSound(id);
      v := Admit(id, data);
      IsSound(id);
    }

    lemma HasFirst()
      requires Valid()
      ensures |filters| >= 1
    {
    }

    lemma IsSound(id: nat)
      requires Valid() && id < |filters|
      ensures filters[id].Sound()
    {
    }

    /** tbf_queue_packet. An id one past the table passes the test, and a filter outside it is read: `None`. */
    method QueuePacket(id: int, data: Packet, now: int) returns (r: Option<int>)
      requires Valid() && (1 <= id < |filters| ==> filters[id].lasttime <= now)
      modifies this`timer_chain, this`chain, if 1 <= id < |filters| then {filters[id]} else {}
      modifies filters`next, filters`prev
      ensures Valid()
      ensures if 1 <= id < |filters| && old(filters[id].sid) != 0 then
                var s := old(filters[id].Now()); var e := Offer(now, data); var v := Judge(Run(s.bucket, now), data);
                && filters[id].Now() == State(Step(s.bucket, e), s.gone + Out(s.bucket, e), s.runs + 1, s.sid)
                && r == Some(match v case Sent => |data| case Queued => 0 case Dropped => -1)
              else
                && r == (if id == |filters| then None else Some(-1)) && chain == old(chain)
                && (1 <= id < |filters| ==> filters[id].Now() == old(filters[id].Now()))
      ensures 1 <= id < |filters| ==> (id in chain <==> filters[id].sid != 0 && filters[id].queued > 0)
    {
      hide Run, RunOut, Chained, Taken, Judge, Step, Out, Filter.Ring, Filter.View, TokenBucket.Valid, Valid;
      HasFirst();
      if 1 <= id < |filters| { IsSound(id); ChainIs(id); }
      if id > |filters| || id < 1 { return Some(-1); }
      if id == |filters| { return None; }
      if filters[id].sid == 0 { return Some(-1); }
      var v := Accept(id, data, now);
      ChainIs(id);
      if v.Sent? { return Some(|data|); }
      if v.Dropped? { return Some(-1); }
      return Some(0);
    }

    /** init_tbf: the first filter is reserved, and all others are free. */
    constructor (num_tbfs: nat)
      requires num_tbfs >= 1
      ensures Valid() && |filters| == num_tbfs && chain == [] && forall i :: 1 <= i < num_tbfs ==> filters[i].sid == 0
      ensures fresh(filters)
    {
      hide Filter.Sound, Chained;
      var fs := Allocate(num_tbfs);
      fs[0].sid := 0xffff;
      filters, timer_chain, p, chain := fs, -1, 0, [];
      NoChain(fs);
    }

    /** new_tbf: the search goes round once, from where the last one ended, and takes the first free filter. */
    method New(sid: U16, max_credit: nat, rate: nat, f: bool) returns (r: nat)
      requires Valid()
      modifies this`p, filters
      ensures Valid() && chain == old(chain)
      ensures r == 0 <==> forall i :: 0 <= i < |filters| ==> old(filters[i].sid) != 0
      ensures r == 0 ==> States() == old(States()) && p == old(p)
      ensures r > 0 ==> p == r < |filters| && old(filters[r].sid) == 0
      ensures r > 0 ==> Updated(old(States()), States(), r, Fresh(sid, max_credit, rate, f))
      ensures r > 0 ==>
                && filters[r].sid == sid && filters[r].credit == filters[r].max_credit == max_credit
                && filters[r].rate == rate && filters[r].sends == f && filters[r].queued == 0
      ensures r > 0 ==> forall j :: 0 <= j < |filters| && Between(old(p), r, j) ==> old(filters[j].sid) != 0
    {
      hide Chained, StatesOf, Filter.Sound, Fresh, Updated;
      var found := FindFree();
      if !found { return 0; }
      Take(p, sid, max_credit, rate, f);
      return p;
    }

    /** The search of new_tbf: once round, to the first free filter. */
    method FindFree() returns (found: bool)
      requires p < |filters|
      modifies this`p
      ensures p < |filters| && found == (filters[p].sid == 0)
      ensures found ==> forall j :: 0 <= j < |filters| && Between(old(p), p, j) ==> filters[j].sid != 0
      ensures !found ==> p == old(p) && forall j :: 0 <= j < |filters| ==> filters[j].sid != 0
    {
      var i, n := 0, |filters|;
      while i < n
        invariant i <= n && p == if old(p) + i < n then old(p) + i else old(p) + i - n
        invariant forall j :: 0 <= j < n ==>
                    (if old(p) + i <= n then old(p) <= j < old(p) + i else j >= old(p) || j < old(p) + i - n) ==>
                      filters[j].sid != 0
      {
        if filters[p].sid == 0 { return true; }
        NextPlace(p, n);
        p := (p + 1) % n;
        i := i + 1;
      }
      return false;
    }

    method Take(id: nat, sid: U16, max_credit: nat, rate: nat, f: bool)
      requires Valid() && id < |filters| && filters[id].sid == 0
      modifies filters[id]
      ensures Valid() && Updated(old(States()), States(), id, Fresh(sid, max_credit, rate, f))
      ensures filters[id].sid == sid && filters[id].credit == filters[id].max_credit == max_credit
      ensures filters[id].rate == rate && filters[id].sends == f && filters[id].queued == 0
    {
      hide Circle, Nexts, Prevs, StatesOf, Filter.Ring, Filter.View, TokenBucket.Valid, Fresh, Filter.Now;
      ghost var next, prev := Nexts(filters), Prevs(filters);
      OnChain(filters, timer_chain, chain, id);
      filters[id].Reset(sid, max_credit, rate, f);
      assert Nexts(filters) == next && Prevs(filters) == prev;
    }

    /** free_tbf */
    method Free(tid: int) returns (r: int)
      requires Valid() && tid < |filters|
      modifies this`timer_chain, this`chain, if 1 <= tid then {filters[tid]} else {}, filters`next, filters`prev
      ensures Valid() && r == if tid < 1 then -1 else 0
      ensures 1 <= tid ==> filters[tid].Now() == old(filters[tid].Now()).(sid := 0)
      ensures chain ==
              if tid !in old(chain) then old(chain)
              else old(chain)[..Place(old(chain), tid)] + old(chain)[Place(old(chain), tid) + 1..]
    {
      hide Chained, Place, Filter.Ring, Filter.View, TokenBucket.Valid, Circle, Nexts, Prevs;
      if tid < 1 {
        ChainBounds(filters, timer_chain, chain);
        return -1;
      }
      OnChain(filters, timer_chain, chain, tid);
      if filters[tid].next != 0 {
        ghost var k := Place(chain, tid);
        CutMembers(filters, timer_chain, chain, k);
        DelFromTimer(tid, k);
      }
      assert ValidBut(tid);
      filters[tid].sid := 0;
      assert ValidBut(tid);
      hide ValidBut, Valid;
      Restored(tid);
      return 0;
    }

    /** tbf_run_timer: every filter on the chain is run once, no other is touched, though filters leave the
        chain while it is walked; the safety counter never ends the walk. */
    method RunTimer(now: int) returns (r: int)
      requires Valid() && forall i :: 0 <= i < |filters| ==> filters[i].lasttime <= now
      modifies this`timer_chain, this`chain, filters
      ensures Valid() && r == if old(chain) == [] then 0 else 1
      ensures Walked(old(States()), States(), old(chain), |old(chain)|, now)
      ensures forall j :: 0 <= j < |filters| ==>
                filters[j].Now() == if j in old(chain) then Ran(old(filters[j].Now()), now) else old(filters[j].Now())
    {
      hide Valid, Are, Run, RunOut, Ran, Passed, Walked, States, Once, Early;
      ghost var all, n, start := chain, |chain|, States();
      WalkStart();
      StatesAre(now);
      StatesHold(start);
      WalkAll(all, start, now);
      ghost var states := start;
      var i, count := timer_chain, |filters| + 1;
      if timer_chain < 0 { return 0; }
      var last := filters[i].prev;
      ghost var k, kept := 0, [];
      while true
        invariant Valid() && k < n && i == all[k] && chain == kept + all[k..] && count == |filters| + 1 - k
        invariant Are(states) && Walked(start, states, all, k, now)
        decreases n - k
      {
        var tbf_id := i;
        WalkOn(start, states, all, k, now, kept);
        i, kept := RunNext(tbf_id, now, kept, all[k + 1..], states);
        states := states[tbf_id := Ran(states[tbf_id], now)];
        k := k + 1;
        if !(timer_chain > 0 && i != 0 && tbf_id != last) { break; }
        count := count - 1;
        if count <= 0 { break; }
      }
      AreStates(states);
      StatesHold(states);
      WalkedAll(start, states, all, now);
      return 1;
    }

    /** The whole table but for its links. */
    ghost function States(): (r: seq<State>)
      requires Valid()
      reads this`timer_chain, this`chain, this`p, filters
    {
      StatesOf(filters)
    }

    lemma StatesAre(now: int)
      requires Valid() && forall i :: 0 <= i < |filters| ==> filters[i].lasttime <= now
      ensures Are(States()) && Early(States(), now) && |States()| == |filters|
    {
    }

    lemma StatesHold(states: seq<State>)
      requires Are(states)
      ensures |states| == |filters|
      ensures forall j :: 0 <= j < |filters| ==> filters[j].Ring() && filters[j].Now() == states[j]
    {
    }

    lemma AreStates(states: seq<State>)
      requires Valid() && Are(states)
      ensures States() == states
    {
    }

    ghost predicate Are(states: seq<State>)
      reads filters
    {
      |states| == |filters| && forall j :: 0 <= j < |filters| ==> filters[j].Ring() && filters[j].Now() == states[j]
    }

    /** One step of the walk: the next filter is noted before this one is run, as it may leave the chain. */
    method RunNext(id: nat, now: int, ghost kept: seq<nat>, ghost rest: seq<nat>, ghost states: seq<State>)
      returns (i: nat, ghost kept': seq<nat>)
      requires Valid() && Are(states) && chain == kept + [id] + rest && id < |states|
      requires states[id].bucket.lasttime <= now
      modifies this`timer_chain, this`chain, filters
      ensures Valid() && chain == kept' + rest && Are(states[id := Ran(states[id], now)])
      ensures (rest != [] ==> i == rest[0] && timer_chain > 0 && i > 0) && i < |filters|
    {
      hide Valid, Are, Chained, Run, RunOut, Ran, Filter.Now;
      ghost var k := |kept|;
      NextOf(k);
      i := filters[id].next;
      assert chain[k] == id;
      RunOne(id, now, k, states);
      Head();
      kept' := if filters[id].queued == 0 then kept else kept + [id];
    }

    /** Where the links at place `k` of the chain lead. */
    lemma NextOf(k: nat)
      requires Valid() && k < |chain|
      ensures 1 <= chain[k] < |filters| && 1 <= filters[chain[k]].next == chain[Succ(k, |chain|)] < |filters|
    {
      hide Chained;
      ChainNext(filters, timer_chain, chain, k);
      ChainBounds(filters, timer_chain, chain);
    }

    lemma Head()
      requires Valid()
      ensures chain != [] ==> timer_chain == chain[0] && 1 <= chain[0] < |filters|
    {
      hide Chained;
      ChainBounds(filters, timer_chain, chain);
    }

    method RunOne(id: nat, now: int, ghost k: nat, ghost states: seq<State>)
      requires Valid() && Are(states) && k < |chain| && chain[k] == id && id < |states|
      requires states[id].bucket.lasttime <= now
      modifies this`timer_chain, this`chain, filters
      ensures Valid() && Are(states[id := Ran(states[id], now)])
      ensures chain == if filters[id].queued == 0 then old(chain)[..k] + old(chain)[k + 1..] else old(chain)
    {
      hide Chained, Filter.Ring, Filter.View, TokenBucket.Valid, Run, RunOut, Ran;
      RunQueue(id, now, k);
    }

    /** What the walk relies on at its start. */
    lemma WalkStart()
      requires Valid()
      ensures |chain| < |filters| && if chain == [] then timer_chain == -1 else timer_chain == chain[0]
      ensures chain != [] ==> chain[0] < |filters| && filters[chain[0]].prev == chain[|chain| - 1]
      ensures Once(chain, |filters|)
    {
      hide Nexts, Prevs;
      ChainShort(filters, timer_chain, chain);
      CircleHead(Nexts(filters), Prevs(filters), timer_chain, chain);
    }
  }

  /** One of the first `k` of the chain. */
  ghost predicate Passed(all: seq<nat>, k: nat, j: nat)
    requires k <= |all|
  {
    exists h :: 0 <= h < k && all[h] == j
  }

  /** The first `k` filters of the chain were run once, and nothing else has changed. */
  ghost predicate Walked(start: seq<State>, states: seq<State>, all: seq<nat>, k: nat, now: int)
    requires k <= |all|
  {
    && |states| == |start|
    && forall j :: 0 <= j < |start| ==> states[j] == if Passed(all, k, j) then Ran(start[j], now) else start[j]
  }

  /** In the end exactly the filters that were on the chain have been run. */
  lemma WalkedAll(start: seq<State>, states: seq<State>, all: seq<nat>, now: int)
    requires Walked(start, states, all, |all|, now)
    ensures |states| == |start|
    ensures forall j :: 0 <= j < |start| ==> states[j] == if j in all then Ran(start[j], now) else start[j]
  {
    hide Ran;
  }

  ghost predicate Once(all: seq<nat>, m: nat) {
    && (forall i, j :: 0 <= i < j < |all| ==> all[i] != all[j])
    && (forall k :: 0 <= k < |all| ==> all[k] < m)
  }

  ghost predicate Early(states: seq<State>, now: int) {
    forall i :: 0 <= i < |states| ==> states[i].bucket.lasttime <= now
  }

  lemma WalkAll(all: seq<nat>, start: seq<State>, now: int)
    ensures Walked(start, start, all, 0, now) && all[0..] == all
  {
  }

  lemma WalkOn(start: seq<State>, states: seq<State>, all: seq<nat>, k: nat, now: int, kept: seq<nat>)
    requires k < |all| && Walked(start, states, all, k, now) && Once(all, |start|) && Early(start, now)
    ensures kept + all[k..] == kept + [all[k]] + all[k + 1..] && (all[k] == all[|all| - 1] <==> k == |all| - 1)
    ensures all[k] < |states| == |start| && states[all[k]].bucket.lasttime <= now
    ensures Walked(start, states[all[k] := Ran(states[all[k]], now)], all, k + 1, now)
  {
    hide Ran;
    assert all[k..] == [all[k]] + all[k + 1..];
    forall j
      ensures Passed(all, k + 1, j) <==> Passed(all, k, j) || j == all[k]
    {
      assert all[k] == all[k];
    }
  }

  lemma ChainNext(fs: seq<Filter>, head: int, chain: seq<nat>, k: nat)
    requires Chained(fs, head, chain) && k < |chain|
    ensures chain[k] < |fs| && fs[chain[k]].next == chain[Succ(k, |chain|)]
  {
    hide Nexts, Prevs, Circle;
    CircleAt(Nexts(fs), Prevs(fs), head, chain, k);
  }

  lemma ChainBounds(fs: seq<Filter>, head: int, chain: seq<nat>)
    requires Chained(fs, head, chain)
    ensures (forall k :: 0 <= k < |chain| ==> 1 <= chain[k] < |fs|) && (chain != [] ==> head == chain[0])
  {
    hide Nexts, Prevs;
  }

  lemma TakenQueue(b: Bucket, p: Packet)
    ensures Taken(b, p).queue == if Judge(b, p) == Queued then b.queue + [p] else b.queue
  {
  }

  /** Distinct ids below `m` are fewer than `m`. */
  lemma {:induction false} Pigeonhole(chain: seq<nat>, m: nat)
    requires forall j, k :: 0 <= j < k < |chain| ==> chain[j] != chain[k]
    requires forall k :: 0 <= k < |chain| ==> 1 <= chain[k] < m
    ensures chain != [] ==> |chain| < m
    decreases m
  {
    if chain != [] {
      assert 1 <= chain[0] < m;
      if m - 1 in chain {
        var k := Place(chain, m - 1);
        var c := chain[..k] + chain[k + 1..];
        assert forall j :: 0 <= j < |c| ==> c[j] == chain[if j < k then j else j + 1];
        Pigeonhole(c, m - 1);
      } else {
        assert forall k :: 0 <= k < |chain| ==> chain[k] in chain;
        Pigeonhole(chain, m - 1);
      }
    }
  }

  lemma ChainShort(fs: seq<Filter>, head: int, chain: seq<nat>)
    requires Chained(fs, head, chain) && |fs| >= 1
    ensures |chain| < |fs|
  {
    hide Nexts, Prevs;
    Pigeonhole(chain, |fs|);
  }

  ghost function Place(chain: seq<nat>, id: nat): (k: nat)
    requires id in chain
    ensures k < |chain| && chain[k] == id
  {
    var k :| 0 <= k < |chain| && chain[k] == id; k
  }

  /** A filter's link tells whether it is on the chain. */
  lemma OnChain(fs: seq<Filter>, head: int, chain: seq<nat>, id: nat)
    requires Chained(fs, head, chain) && id < |fs|
    ensures fs[id].next != 0 <==> id in chain
    ensures id !in chain ==> fs[id].prev == 0
  {
    hide Circle, Nexts, Prevs;
    var next, prev := Nexts(fs), Prevs(fs);
    if id in chain {
      var k :| 0 <= k < |chain| && chain[k] == id;
      CircleAt(next, prev, head, chain, k);
      CircleAt(next, prev, head, chain, Succ(k, |chain|));
    } else {
      CircleOff(next, prev, head, chain, id);
    }
  }

  lemma CutMembers(fs: seq<Filter>, head: int, chain: seq<nat>, k: nat)
    requires Chained(fs, head, chain) && k < |chain|
    ensures forall i :: i in chain[..k] + chain[k + 1..] <==> i in chain && i != chain[k]
  {
    assert chain == chain[..k] + [chain[k]] + chain[k + 1..];
  }

  predicate Live(f: Filter)
    reads f`sid, f`queued
  {
    f.sid != 0 && f.queued > 0
  }

  lemma DrainStep(b: Bucket)
    requires b.queue != [] && b.credit >= |b.queue[0]|
    ensures Drained(b) == Drained(Popped(b)) && Leaving(b) == [b.queue[0]] + Leaving(Popped(b))
    ensures |Popped(b).queue| == |b.queue| - 1
  {
    hide TokenBucket.Left;
    var n := Covered(b.queue[1..], b.credit - |b.queue[0]|);
    assert Covered(b.queue, b.credit) == 1 + n;
    FirstAndMore(b.queue, n);
  }

  lemma FirstAndMore<T>(q: seq<T>, n: nat)
    requires n < |q|
    ensures q[..1 + n] == [q[0]] + q[1..][..n]
  {
  }

  lemma DrainStop(b: Bucket)
    requires b.queue == [] || b.credit < |b.queue[0]|
    ensures Drained(b) == b && Leaving(b) == []
  {
  }
}
