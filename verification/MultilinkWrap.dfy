/** Where the words wrap, a fragment that has not come yet can be overtaken: a run on two links, in which nothing
    is lost and every link keeps its order, that loses a packet at fragment 2^32. */
module MultilinkWrap {
  import opened Common
  import opened Multilink
  import opened MultilinkRun

  const X := WORD
  const PAIR: seq<nat> := [0, 1]

  /** Even numbers go over link 0 and odd ones over link 1. Every packet is one fragment, but for X and X + 1. */
  ghost predicate Alternating(s: seq<Slot>, link: seq<nat>) {
    && Stream(s) && |s| == |link| == X + 5 && (forall q :: 0 <= q < |s| ==> link[q] == q % 2)
    && (forall q :: 0 <= q < |s| ==> (Ends(s[q]) <==> q != X))
    && (forall q :: 0 <= q < |s| ==> 4 + 2 * |s[q].data| <= MAXETHER)
  }

  function Count(n: nat, m: nat): (qs: seq<nat>)
    requires n <= m
    ensures |qs| == m - n && forall i :: 0 <= i < |qs| ==> qs[i] == n + i
  {
    seq(m - n, i requires 0 <= i < m - n => n + i)
  }

  /** The last numbers when everything below `n` has come. */
  function TopAt(n: nat): (top: seq<nat>)
    ensures |top| == 2
  {
    var before, last := if n < 2 then 0 else n - 2, if n < 1 then 0 else n - 1;
    if n % 2 == 0 then [before, last] else [last, before]
  }

  lemma SingleFrames(s: seq<Slot>, link: seq<nat>, q: nat)
    requires Alternating(s, link) && q < |s|
    ensures q != X ==> LastOf(s, q) == Some(q)
    ensures q == X ==> LastOf(s, q) == Some(q + 1)
    ensures Begins(s[q]) <==> q != X + 1
  {
    assert q > 0 ==> (Begins(s[q]) <==> Ends(s[q - 1]));
  }

  /** Everything below `n` has come: so far all frames are complete. */
  lemma {:induction false} BoundOfFirst(s: seq<Slot>, link: seq<nat>, got: set<nat>, b: nat, n: nat)
    requires Alternating(s, link) && b <= n <= X && n !in got && forall q :: b <= q < n ==> q in got
    ensures Bound(s, got, b) == n
    decreases n - b
  {
    hide Alternating, LastOf;
    assert n < |s| by { LengthIs(s, link); }
    SingleFrames(s, link, b);
    SingleFrames(s, link, n);
    if b < n { BoundOfFirst(s, link, got, b + 1, n); }
  }

  lemma LengthIs(s: seq<Slot>, link: seq<nat>)
    requires Alternating(s, link)
    ensures Stream(s) && |s| == |link| == X + 5 && Routed(s, link, PAIR)
  {
    assert PAIR[0] == 0 && PAIR[1] == 1;
    forall q | 0 <= q < |s|
      ensures link[q] in PAIR
    {
      assert link[q] == 0 || link[q] == 1;
    }
  }

  lemma LinkOf(s: seq<Slot>, link: seq<nat>, q: nat)
    requires Alternating(s, link) && q < |s|
    ensures link[q] == q % 2
  {
  }

  lemma LeadOfPair(top: seq<nat>, m: nat)
    requires |top| == 2 && (m == top[0] || m == top[1]) && !Before(top[0], m) && !Before(top[1], m)
    ensures Members(PAIR, |top|) && Lead(top, PAIR) == m
  {
    assert top[PAIR[0]] == top[0] && top[PAIR[1]] == top[1];
    LeadIs(top, PAIR, m);
  }

  /** A single step of the run in order. */
  lemma InOrderStep(s: seq<Slot>, link: seq<nat>, n: nat)
    requires Alternating(s, link) && n < X
    ensures link[n] < 2 && TopAt(n)[link[n] := n] == TopAt(n + 1) && Below(n) + {n} == Below(n + 1)
    ensures Arrives(TopAt(n), PAIR, s, link, Below(n), n)
    ensures Members(PAIR, |TopAt(n + 1)|) && Calm(s, Below(n + 1), Lead(TopAt(n + 1), PAIR))
  {
    hide Lead, Stream, Bound;
    LengthIs(s, link);
    LinkOf(s, link, n);
    BoundOfFirst(s, link, Below(n), 0, n);
    BoundOfFirst(s, link, Below(n + 1), 0, n + 1);
    var lead := if n < 1 then 0 else n - 1;
    SmallRounds(n);
    LeadOfPair(TopAt(n + 1), lead);
    SingleFrames(s, link, lead);
    assert TopAt(n)[PAIR[0]] == TopAt(n)[0] && TopAt(n)[PAIR[1]] == TopAt(n)[1];
  }

  lemma SmallRounds(n: nat)
    requires n < X
    ensures n / WORD == 0 && (n > 0 ==> (n - 1) / WORD == 0)
  {
  }

  /** From the start, everything in order up to the wrap: nothing goes wrong. */
  lemma {:induction false} InOrderArrives(s: seq<Slot>, link: seq<nat>, n: nat)
    requires Alternating(s, link) && n <= X
    ensures Arriving(TopAt(n), PAIR, s, link, Below(n), Count(n, X))
    ensures CalmRun(TopAt(n), PAIR, s, link, Below(n), Count(n, X))
    ensures TopAfter(TopAt(n), link, Count(n, X)) == TopAt(X)
    decreases X - n
  {
    hide Alternating, Arrives, Calm, Lead, TopAt, Below;
    if n < X {
      LengthIs(s, link);
      InOrderStep(s, link, n);
      InOrderArrives(s, link, n + 1);
      assert Count(n, X)[1..] == Count(n + 1, X);
    }
  }

  /** What has come after X and X + 2, and then X + 4. */
  function Got(n: nat): set<nat> {
    if n == 0 then Below(X) else if n == 1 then Below(X) + {X} else if n == 2 then Below(X) + {X} + {X + 2}
    else Below(X) + {X} + {X + 2} + {X + 4}
  }

  /** The packet at X is not complete as long as X + 1 is missing. */
  lemma Waiting(s: seq<Slot>, link: seq<nat>, got: set<nat>)
    requires Alternating(s, link) && X + 1 !in got && forall q :: 0 <= q < X ==> q in got
    ensures Bound(s, got, 0) == X && Frames(s, got, X) == []
    ensures Frames(s, got, 0) == Frames(s, Below(X), 0)
  {
    hide Alternating, LastOf, Stream;
    LengthIs(s, link);
    SingleFrames(s, link, X);
    BoundOfFirst(s, link, Below(X), 0, X);
    FramesGrow(s, Below(X), got, 0);
    FramesGrow(s, Below(X), Below(X), 0);
    assert !Complete(s, got, X) && !Complete(s, Below(X), X);
  }

  lemma StillWaiting(s: seq<Slot>, link: seq<nat>, n: nat)
    requires Alternating(s, link) && n <= 3
    ensures Bound(s, Got(n), 0) == X
  {
    hide Alternating, Bound, Frames;
    Waiting(s, link, Got(n));
  }

  /** The last numbers then. */
  function TopThen(n: nat): (top: seq<nat>)
    ensures |top| == 2 && Members(PAIR, |top|)
  {
    [X - 2 + 2 * n, X - 1]
  }

  lemma NextArrives(s: seq<Slot>, link: seq<nat>, n: nat)
    requires Alternating(s, link) && n < 3
    ensures Arrives(TopThen(n), PAIR, s, link, Got(n), X + 2 * n)
    ensures link[X + 2 * n] == 0 && TopThen(n)[0 := X + 2 * n] == TopThen(n + 1) && Got(n + 1) == Got(n) + {X + 2 * n}
  {
    hide Alternating, Bound, Frames;
    LengthIs(s, link);
    LinkOf(s, link, X + 2 * n);
    StillWaiting(s, link, n);
    NextOnLink(s, link, Got(n), n);
    assert TopThen(n)[PAIR[0]] == X - 2 + 2 * n && TopThen(n)[PAIR[1]] == X - 1;
  }

  lemma LeadThen(n: nat)
    requires 0 < n <= 3
    ensures Lead(TopThen(n), PAIR) == X - 2 + 2 * n
  {
    hide Lead;
    RoundOfX(2 * n - 2);
    RoundOfX(0);
    LeadOfPair(TopThen(n), X - 2 + 2 * n);
  }

  lemma CalmThen(s: seq<Slot>, link: seq<nat>, n: nat)
    requires Alternating(s, link) && 0 < n < 3
    ensures Calm(s, Got(n), Lead(TopThen(n), PAIR))
  {
    hide Stream, Bound, Frames, Lead, TopThen;
    LeadThen(n);
    Waiting(s, link, Got(n));
    RoundOfX(2 * n - 2);
  }

  /** X and then X + 2 come over link 0: everything is still in step, and nothing is complete. */
  lemma FirstTwo(b: Bundle, s: seq<Slot>, link: seq<nat>, n: nat)
    requires Alternating(s, link) && n < 2 && Inv(b, TopThen(n), PAIR, s, link, Got(n))
    ensures Ready(b, PAIR) && Routed(s, link, PAIR) && X + 2 * n < |s|
    ensures var r := Take(b, PAIR, s, link, X + 2 * n);
            Inv(r.bundle, TopThen(n + 1), PAIR, s, link, Got(n + 1)) && r.frames == []
  {
    hide Alternating, Stream, Lead, Take, Inv, Frames, Bound, Ready, Calm, Got, TopThen, Arrives;
    LengthIs(s, link);
    NextArrives(s, link, n);
    CalmThen(s, link, n + 1);
    ReceiveIff(b, TopThen(n), PAIR, s, link, Got(n), X + 2 * n);
    SameFrames(s, link, n);
  }

  lemma SameFrames(s: seq<Slot>, link: seq<nat>, n: nat)
    requires Alternating(s, link) && n <= 2
    ensures Frames(s, Got(n), 0) == Frames(s, Got(n + 1), 0)
  {
    hide Alternating, Frames;
    Waiting(s, link, Got(n));
    Waiting(s, link, Got(n + 1));
  }

  lemma RoundOfX(d: nat)
    requires d < X
    ensures (X + d) / WORD == 1 && (X + d) % WORD == d && (X - 1) / WORD == 0
  {
  }

  lemma NextOnLink(s: seq<Slot>, link: seq<nat>, got: set<nat>, n: nat)
    requires Alternating(s, link) && n < 3 && got == Got(n)
    ensures forall x :: 0 <= x < X + 2 * n && link[x] == link[X + 2 * n] ==> x in got
  {
    hide Stream;
  }

  // ---- the third fragment on link 0 ----

  /** Slots 0, 2 and 4 are occupied: a begin without its end, and two whole frames. */
  ghost predicate Gapped(r: Ring) {
    && Congruent(r) && r.start == 0 && r.index == 0 && !Full(r.slots[1]) && !Full(r.slots[3])
    && Full(r.slots[0]) && r.slots[0].num == 0 && Begins(r.slots[0]) && !Ends(r.slots[0])
    && Full(r.slots[2]) && r.slots[2].num == 2 && Begins(r.slots[2]) && Ends(r.slots[2])
    && 4 + |r.slots[2].data| <= MAXETHER
  }

  /** The search finds the begin at 0, misses its end and goes on to the frame at 2. */
  lemma GappedSearch(r: Ring)
    requires Gapped(r)
    ensures FindFrame(r, 0, 0, 4) == Ring(r.slots, 2, 2)
  {
    hide Laps, Full, Begins, Ends, Placed;
    StepOn(r.slots, 0, 4);
    assert FindEnd(r.slots, 1, 1, 4) == Search(r.slots, 1, 1, false);
    assert FindEnd(r.slots, 0, 0, 4) == Search(r.slots, 1, 1, false);
    assert FindEnd(r.slots, 2, 2, 4) == Search(r.slots, 2, 2, true);
    assert FindFrame(Ring(r.slots, 0, 0), 2, 2, 4) == Ring(r.slots, 2, 2);
    assert r == Ring(r.slots, 0, 0);
  }

  lemma GappedAssembly(r: Ring)
    requires Gapped(r)
    ensures Assemble(Ring(r.slots, 2, 2), 4) == Assembly(Ring(Clear(r.slots, 2), 3, 3), [r.slots[2].data], Find)
  {
    hide Full, Begins, Ends, Placed;
    assert EndFrom(r.slots, 2, MAXFRAGNUM) == Some(2);
    assert Data(r.slots, 2, 2) == r.slots[2].data && ClearAll(r.slots, 2, 2) == Clear(r.slots, 2);
  }

  lemma NothingAtThree(r: Ring)
    requires Congruent(r) && r.start == 3 && r.index == 3 && !Full(r.slots[3])
    ensures FindFrame(r, 3, 3, 4) == r && Assemble(r, 4) == Assembly(r, [], Stop)
  {
    hide Laps, Full, Placed;
    StepOn(r.slots, 3, 4);
  }

  /** So the frame at 2 leaves first, and the start passes the number that is still missing. */
  lemma GappedPump(r: Ring)
    requires Gapped(r)
    ensures Pump(r, 4, true) == Pumped(Ring(Clear(r.slots, 2), 3, 3), [r.slots[2].data])
  {
    hide FindFrame, Assemble, Full, Begins, Ends, Placed, Occupied;
    GappedSearch(r);
    GappedAssembly(r);
    RoundKeeps(r, 4, true);
    var r' := Ring(Clear(r.slots, 2), 3, 3);
    NothingAtThree(r');
    RoundKeeps(r', 4, true);
    assert Pump(r', 4, true) == Pumped(r', []);
    assert [r.slots[2].data] + [] == [r.slots[2].data];
  }

  lemma WindowGapped(r: Ring, s: seq<Slot>, link: seq<nat>)
    requires Alternating(s, link) && Window(r, X, s, Got(3)) && Congruent(r)
    ensures Gapped(r) && r.slots[2].data == s[X + 2].data
  {
    hide Window, Stream, Alternating, Placed;
    LengthIs(s, link);
    WindowShape(r, X, s, Got(3));
    SlotOf(r, X, s, Got(3), X);
    SlotOf(r, X, s, Got(3), X + 1);
    SlotOf(r, X, s, Got(3), X + 2);
    SlotOf(r, X, s, Got(3), X + 3);
    SingleFrames(s, link, X);
    SingleFrames(s, link, X + 2);
    EndsAre(s, link);
  }

  lemma EndsAre(s: seq<Slot>, link: seq<nat>)
    requires Alternating(s, link)
    ensures !Ends(s[X]) && Ends(s[X + 2]) && 4 + |s[X + 2].data| <= MAXETHER
  {
  }

  /** X + 4 makes M pass X + 1, which is missing: X + 2 is delivered before the packet at X. */
  lemma ThirdOvertakes(b: Bundle, s: seq<Slot>, link: seq<nat>)
    requires Alternating(s, link) && Inv(b, TopThen(2), PAIR, s, link, Got(2))
    ensures Ready(b, PAIR) && Routed(s, link, PAIR) && X + 4 < |s|
    ensures var r := Take(b, PAIR, s, link, X + 4);
            && r.frames == [s[X + 2].data] && r.bundle.m == 4 && r.bundle.ring.start == 3
            && |r.bundle.last| == 2 && r.bundle.last == [4, WORD - 1]
  {
    hide Alternating, Stream, Lead, Inv, Window, Bound, Got, Arrives, Pump, Receive, Placed, Latest, Near, InOrder,
         Newest;
    LengthIs(s, link);
    NextArrives(s, link, 2);
    LeadThen(3);
    RoundOfX(4);
    StillWaiting(s, link, 2);
    ReceiveIs(b, TopThen(2), PAIR, s, link, Got(2), X + 4);
    var r0 := b.ring.(slots := b.ring.slots[(X + 4) % MAXFRAGNUM := s[X + 4]]);
    WindowGapped(r0, s, link);
    GappedPump(r0);
    var r := Take(b, PAIR, s, link, X + 4);
    assert r.bundle.last[PAIR[0]] == TopThen(3)[PAIR[0]] % WORD && r.bundle.last[PAIR[1]] == TopThen(3)[PAIR[1]] % WORD;
  }

  /** X + 1 then comes before the start and is lost. */
  lemma FourthIsLost(b: Bundle, s: seq<Slot>, link: seq<nat>)
    requires Alternating(s, link) && Ready(b, PAIR) && b.m == 4 && b.ring.start == 3 && b.last == [4, WORD - 1]
    ensures Routed(s, link, PAIR) && X + 1 < |s|
    ensures var r := Take(b, PAIR, s, link, X + 1); r.frames == [] && r.bundle.ring == b.ring && r.bundle.m == 1
  {
    hide Alternating, Stream, Placed, Insert;
    LengthIs(s, link);
    LinkOf(s, link, X + 1);
    assert Expand(4, (X + 1) % MAX_SEQ) == 1;
    assert NewM(4, 1, [4, 1], PAIR) == 1;
    assert b.last[1 := 1] == [4, 1];
    assert Skip(b.ring, 1) == b.ring && Place(b.ring, 1) == None;
  }

  // ---- the whole run ----

  lemma LastArrives(s: seq<Slot>, link: seq<nat>)
    requires Alternating(s, link)
    ensures Arrives(TopThen(3), PAIR, s, link, Got(3), X + 1) && link[X + 1] == 1
  {
    hide Stream, Bound, Frames;
    LengthIs(s, link);
    LinkOf(s, link, X + 1);
    StillWaiting(s, link, 3);
    assert TopThen(3)[PAIR[0]] == X + 4 && TopThen(3)[PAIR[1]] == X - 1;
    forall x | 0 <= x < X + 1 && link[x] == link[X + 1]
      ensures x in Got(3)
    {
      assert x % 2 == 1;
    }
  }

  const TAIL: seq<nat> := [X, X + 2, X + 4, X + 1]

  /** Nothing is lost on the way and both links keep their order. */
  lemma TailArrives(s: seq<Slot>, link: seq<nat>)
    requires Alternating(s, link)
    ensures Arriving(TopThen(0), PAIR, s, link, Got(0), TAIL)
  {
    hide Alternating, Arrives, Got, TopThen;
    NextArrives(s, link, 0);
    NextArrives(s, link, 1);
    NextArrives(s, link, 2);
    LastArrives(s, link);
    assert TAIL[1..] == [X + 2, X + 4, X + 1] && TAIL[1..][1..] == [X + 4, X + 1];
    assert TAIL[1..][1..][1..] == [X + 1] && TAIL[1..][1..][1..][1..] == [];
    assert Arriving(TopThen(3), PAIR, s, link, Got(3), [X + 1]);
    assert Arriving(TopThen(2), PAIR, s, link, Got(2), [X + 4, X + 1]);
    assert Arriving(TopThen(1), PAIR, s, link, Got(1), [X + 2, X + 4, X + 1]);
  }

  /** X + 2 is delivered, and the packet at X never. */
  lemma TailLoses(b: Bundle, s: seq<Slot>, link: seq<nat>)
    requires Alternating(s, link) && Inv(b, TopThen(0), PAIR, s, link, Got(0))
    ensures Ready(b, PAIR) && Routed(s, link, PAIR) && Inside(TAIL, s)
    ensures After(b, PAIR, s, link, TAIL).frames == [s[X + 2].data]
  {
    hide Alternating, Take, Got, TopThen, Inv, Ready, Routed;
    LengthIs(s, link);
    FirstTwo(b, s, link, 0);
    var b1 := Take(b, PAIR, s, link, X).bundle;
    FirstTwo(b1, s, link, 1);
    var b2 := Take(b1, PAIR, s, link, X + 2).bundle;
    ThirdOvertakes(b2, s, link);
    var b3 := Take(b2, PAIR, s, link, X + 4).bundle;
    FourthIsLost(b3, s, link);
    assert TAIL[1..] == [X + 2, X + 4, X + 1] && TAIL[1..][1..] == [X + 4, X + 1];
    assert TAIL[1..][1..][1..] == [X + 1] && TAIL[1..][1..][1..][1..] == [];
    assert After(b3, PAIR, s, link, [X + 1]).frames == [];
    assert After(b2, PAIR, s, link, [X + 4, X + 1]).frames == [s[X + 2].data];
    assert After(b1, PAIR, s, link, [X + 2, X + 4, X + 1]).frames == [s[X + 2].data];
  }

  /** What should have been delivered. */
  lemma ShouldBe(s: seq<Slot>, link: seq<nat>, got: set<nat>)
    requires Alternating(s, link) && X + 3 !in got && forall q :: 0 <= q < X + 3 ==> q in got
    ensures Frames(s, got, 0) == Frames(s, Below(X), 0) + [s[X].data + s[X + 1].data, s[X + 2].data]
  {
    hide Alternating, LastOf, Stream, Frames, Ends, Begins, Full, Complete, Bound;
    LengthIs(s, link);
    SingleFrames(s, link, X);
    SingleFrames(s, link, X + 2);
    SingleFrames(s, link, X + 3);
    BoundOfFirst(s, link, Below(X), 0, X);
    FramesGrow(s, Below(X), got, 0);
    Sizes(s, link);
    FrameOfTwo(s, got, X);
    FrameOfOne(s, got, X + 2);
    NoFrame(s, got, X + 3);
    assert Frames(s, got, X) == [s[X].data + s[X + 1].data] + [s[X + 2].data];
  }

  lemma FrameOfOne(s: seq<Slot>, got: set<nat>, q: nat)
    requires LastOf(s, q) == Some(q) && q in got && 4 + |s[q].data| <= MAXETHER
    ensures Frames(s, got, q) == [s[q].data] + Frames(s, got, q + 1)
  {
    hide LastOf;
    assert Complete(s, got, q);
  }

  lemma FrameOfTwo(s: seq<Slot>, got: set<nat>, q: nat)
    requires LastOf(s, q) == Some(q + 1) && q in got && q + 1 in got && 4 + |s[q].data + s[q + 1].data| <= MAXETHER
    ensures Frames(s, got, q) == [s[q].data + s[q + 1].data] + Frames(s, got, q + 2)
  {
    hide LastOf;
    assert Complete(s, got, q);
    assert Whole(s, q, q + 1) == s[q].data + Whole(s, q + 1, q + 1);
  }

  lemma NoFrame(s: seq<Slot>, got: set<nat>, q: nat)
    requires LastOf(s, q).Some? && q !in got
    ensures Frames(s, got, q) == []
  {
    hide LastOf;
  }

  lemma Sizes(s: seq<Slot>, link: seq<nat>)
    requires Alternating(s, link)
    ensures 4 + |s[X].data + s[X + 1].data| <= MAXETHER && 4 + |s[X + 2].data| <= MAXETHER
  {
  }

  /** Everything up to X in order, then X, X + 2, X + 4 over one link and X + 1 over the other. */
  function WrapRun(): (qs: seq<nat>) { Count(0, X) + TAIL }

  /** On two links, with nothing lost, each link in order and never more than 4 fragments out of step, the
      packet at X = 2^32 is lost, and the one behind it is delivered in its place. */
  lemma WrapLosesAPacket(b: Bundle, s: seq<Slot>, link: seq<nat>)
    requires Start(b, PAIR) && |b.last| == 2 && Alternating(s, link)
    ensures Ready(b, PAIR) && Routed(s, link, PAIR) && Stream(s) && Inside(WrapRun(), s)
    ensures Arriving(Zero(2), PAIR, s, link, {}, WrapRun())
    ensures After(b, PAIR, s, link, WrapRun()).frames == Frames(s, Below(X), 0) + [s[X + 2].data]
    ensures Frames(s, Elems(WrapRun()), 0) == Frames(s, Below(X), 0) + [s[X].data + s[X + 1].data, s[X + 2].data]
  {
    hide Alternating, Take, Got, Inv, Ready, Routed, Stream, Arriving, CalmRun, After, Frames, TopAfter, Start;
    LengthIs(s, link);
    StartInv(b, PAIR, s, link);
    StartsAt(s, link);
    RunDelivers(b, Zero(2), PAIR, s, link, {}, Count(0, X));
    RunKeepsInv(b, Zero(2), PAIR, s, link, {}, Count(0, X));
    TailArrives(s, link);
    ArrivingJoin(Zero(2), PAIR, s, link, {}, Count(0, X), TAIL);
    var b0 := After(b, PAIR, s, link, Count(0, X)).bundle;
    TailLoses(b0, s, link);
    AfterJoin(b, PAIR, s, link, Count(0, X), TAIL);
    Elements();
    assert {} + Elems(Count(0, X)) == Below(X);
    ShouldBe(s, link, Elems(WrapRun()));
  }

  lemma StartsAt(s: seq<Slot>, link: seq<nat>)
    requires Alternating(s, link)
    ensures Arriving(Zero(2), PAIR, s, link, {}, Count(0, X)) && CalmRun(Zero(2), PAIR, s, link, {}, Count(0, X))
    ensures TopAfter(Zero(2), link, Count(0, X)) == TopThen(0) && Got(0) == {} + Elems(Count(0, X))
  {
    hide Alternating, Arriving, CalmRun, TopAfter;
    InOrderArrives(s, link, 0);
    Elements();
    assert TopAt(0) == Zero(2) && TopAt(X) == TopThen(0) && Below(0) == {};
    assert Got(0) == {} + Elems(Count(0, X));
  }

  lemma Elements()
    ensures Elems(Count(0, X)) == Below(X)
    ensures forall q: nat :: q in Elems(WrapRun()) <==> q < X + 3 || q == X + 4
  {
    forall q: nat | q < X
      ensures q in Count(0, X)
    {
      assert Count(0, X)[q] == q;
    }
    forall q: nat
      ensures q in WrapRun() <==> q in Count(0, X) || q in TAIL
    {
    }
  }

  /** There are such streams. */
  lemma AlternatingExists() returns (s: seq<Slot>, link: seq<nat>)
    ensures Alternating(s, link)
  {
    s := seq(X + 5, q requires 0 <= q < X + 5 =>
               Slot([0], if q == X then 0x80 else if q == X + 1 then 0x40 else 0xC0, q % WORD));
    link := seq(X + 5, q requires 0 <= q < X + 5 => q % 2);
  }
}
