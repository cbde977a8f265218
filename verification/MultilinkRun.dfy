/** Reassembly without loss. Fragments are numbered without bound and seen by the code as 32-bit words.
    Whatever the interleaving of the links, exactly the frames that are complete have left, once each and in
    order, as long as M overtakes nothing that is still missing where the words wrap. */
module MultilinkRun {
  import opened Common
  import opened Multilink

  // ---- the stream of fragments ----

  /** What the sender numbers from 0: no fragment is empty or too long, and a frame begins where the one
      before it ended. */
  ghost predicate Stream(s: seq<Slot>) {
    && (forall q :: 0 <= q < |s| ==> Full(s[q]) && s[q].num == q % WORD && 4 + |s[q].data| <= MAXFRAGLEN)
    && (|s| > 0 ==> Begins(s[0]))
    && (forall q :: 0 < q < |s| ==> (Begins(s[q]) <==> Ends(s[q - 1])))
  }

  predicate FrameStart(s: seq<Slot>, b: nat) { b == |s| || (b < |s| && Begins(s[b])) }

  /** The end of the frame that begins at `b`. */
  function LastOf(s: seq<Slot>, b: nat): (e: Option<nat>)
    ensures e.Some? ==> b <= e.value < |s| && Ends(s[e.value])
    decreases |s| - b
  {
    if b >= |s| then None else if Ends(s[b]) then Some(b) else LastOf(s, b + 1)
  }

  ghost predicate Complete(s: seq<Slot>, got: set<nat>, b: nat) {
    LastOf(s, b).Some? && forall q :: b <= q <= LastOf(s, b).value ==> q in got
  }

  function Whole(s: seq<Slot>, b: nat, e: nat): seq<Byte>
    requires b <= e < |s|
    decreases e - b
  {
    if b == e then s[b].data else s[b].data + Whole(s, b + 1, e)
  }

  /** The first incomplete frame at or after `b`. */
  ghost function Bound(s: seq<Slot>, got: set<nat>, b: nat): (c: nat)
    ensures b <= c
    decreases |s| - b
  {
    if Complete(s, got, b) then Bound(s, got, LastOf(s, b).value + 1) else b
  }

  /** The complete frames from `b` on, but for any that is too large. */
  ghost function Frames(s: seq<Slot>, got: set<nat>, b: nat): seq<seq<Byte>>
    decreases |s| - b
  {
    if Complete(s, got, b) then
      var w := Whole(s, b, LastOf(s, b).value);
      (if 4 + |w| > MAXETHER then [] else [w]) + Frames(s, got, LastOf(s, b).value + 1)
    else []
  }

  // ---- the ring ----

  /** The number a slot is for, when the start is at `b`. */
  function Reach(b: nat, i: nat): (q: nat)
    requires i < MAXFRAGNUM
    ensures b <= q < b + MAXFRAGNUM && q % MAXFRAGNUM == i
  {
    var q := b + (i - b) % MAXFRAGNUM;
    assert q % MAXFRAGNUM == i by { Reached(b, i); }
    q
  }

  lemma Reached(b: nat, i: nat)
    requires i < MAXFRAGNUM
    ensures (b + (i - b) % MAXFRAGNUM) % MAXFRAGNUM == i
  {
  }

  lemma SameSlot(b: nat, q: nat)
    requires b <= q < b + MAXFRAGNUM
    ensures b % MAXFRAGNUM == q % MAXFRAGNUM <==> b == q
  {
  }

  lemma ReachOf(b: nat, q: nat)
    requires b <= q < b + MAXFRAGNUM
    ensures Reach(b, q % MAXFRAGNUM) == q
  {
    var x := Reach(b, q % MAXFRAGNUM);
    if x < q { SameSlot(x, q); } else if q < x { SameSlot(q, x); }
  }

  /** Up to the start, the number `b`, everything has come and gone; from there on the ring holds exactly
      what has come. */
  ghost predicate Window(r: Ring, b: nat, s: seq<Slot>, got: set<nat>) {
    && Shape(r) && r.start == b % WORD && r.index == b % MAXFRAGNUM && FrameStart(s, b)
    && (forall q :: q in got ==> q < |s|)
    && (forall q :: 0 <= q < b ==> q in got)
    && (forall q :: q in got && q >= b ==> q < b + MAXFRAGNUM && r.slots[q % MAXFRAGNUM] == s[q])
    && (forall i :: 0 <= i < MAXFRAGNUM && Full(r.slots[i]) ==> Reach(b, i) in got)
  }

  lemma WindowShape(r: Ring, b: nat, s: seq<Slot>, got: set<nat>)
    requires Window(r, b, s, got)
    ensures Shape(r) && r.start == b % WORD && r.index == b % MAXFRAGNUM && FrameStart(s, b)
  {
  }

  lemma WordIndex(x: nat)
    ensures x % WORD % MAXFRAGNUM == x % MAXFRAGNUM
  {
    var k := x / WORD;
    assert x == x % WORD + MAXFRAGNUM * (0x80_0000 * k);
    WholeTurns(x % WORD, 0x80_0000 * k);
  }

  lemma WindowCongruent(r: Ring, b: nat, s: seq<Slot>, got: set<nat>)
    requires Stream(s) && Window(r, b, s, got)
    ensures Congruent(r)
  {
    hide Reach;
    WordIndex(b);
    forall i | 0 <= i < MAXFRAGNUM && Full(r.slots[i])
      ensures r.slots[i].num % MAXFRAGNUM == i
    {
      var q := Reach(b, i);
      assert r.slots[q % MAXFRAGNUM] == s[q];
      WordIndex(q);
    }
  }

  /** The slot of a number within reach of the start. */
  lemma SlotOf(r: Ring, b: nat, s: seq<Slot>, got: set<nat>, q: nat)
    requires Stream(s) && Window(r, b, s, got) && b <= q
    ensures q in got ==>
              q < b + MAXFRAGNUM && q < |s| && r.slots[q % MAXFRAGNUM] == s[q] && Full(s[q]) && s[q].num == q % WORD
    ensures q < b + MAXFRAGNUM ==> (Full(r.slots[q % MAXFRAGNUM]) <==> q in got)
  {
    hide Reach;
    if q < b + MAXFRAGNUM { ReachOf(b, q); }
  }

  lemma CompleteNext(s: seq<Slot>, got: set<nat>, b: nat)
    ensures Complete(s, got, b) ==> b in got && b < |s|
    ensures b < |s| && b in got && !Ends(s[b]) ==>
            LastOf(s, b) == LastOf(s, b + 1) && (Complete(s, got, b) <==> Complete(s, got, b + 1))
    ensures b < |s| && b in got && Ends(s[b]) ==> LastOf(s, b) == Some(b) && Complete(s, got, b)
  {
  }

  /** The walk to the end of a frame finds it exactly when the frame is complete. */
  lemma {:induction false} EndFromIs(r: Ring, b: nat, s: seq<Slot>, got: set<nat>, q: nat, n: nat)
    requires Stream(s) && Window(r, b, s, got) && b <= q && q + n == b + MAXFRAGNUM
    ensures EndFrom(r.slots, q % MAXFRAGNUM, n) ==
            if Complete(s, got, q) then Some(LastOf(s, q).value % MAXFRAGNUM) else None
    decreases n
  {
    hide Window, Stream, Complete, LastOf, Next;
    WindowShape(r, b, s, got);
    NextIs(q);
    SlotOf(r, b, s, got, q);
    CompleteNext(s, got, q);
    if n > 0 && q in got && !Ends(s[q]) { EndFromIs(r, b, s, got, q + 1, n - 1); }
  }

  lemma Step(slots: seq<Slot>, b: nat, e: nat)
    requires |slots| == MAXFRAGNUM && b <= e < b + MAXFRAGNUM
    ensures var i, j := b % MAXFRAGNUM, e % MAXFRAGNUM;
            if b == e then Data(slots, i, j) == slots[i].data && ClearAll(slots, i, j) == Clear(slots, i)
            else
              && Data(slots, i, j) == slots[i].data + Data(slots, (b + 1) % MAXFRAGNUM, j)
              && ClearAll(slots, i, j) == ClearAll(Clear(slots, i), (b + 1) % MAXFRAGNUM, j)
  {
    SameSlot(b, e);
    NextIs(b);
  }

  lemma {:induction false} DataIs(r: Ring, b: nat, s: seq<Slot>, got: set<nat>, x: nat, e: nat)
    requires Stream(s) && Window(r, b, s, got) && b <= x <= e < b + MAXFRAGNUM && e < |s|
    requires forall q :: x <= q <= e ==> q in got
    ensures Data(r.slots, x % MAXFRAGNUM, e % MAXFRAGNUM) == Whole(s, x, e)
    decreases e - x
  {
    hide Window, Stream, Next, Data;
    WindowShape(r, b, s, got);
    SlotOf(r, b, s, got, x);
    Step(r.slots, x, e);
    if x < e { DataIs(r, b, s, got, x + 1, e); }
  }

  /** Which slots a run of numbers empties. */
  lemma {:induction false} ClearAllAt(slots: seq<Slot>, b: nat, e: nat, q: nat)
    requires |slots| == MAXFRAGNUM && b <= e < b + MAXFRAGNUM && b <= q < b + MAXFRAGNUM
    ensures ClearAll(slots, b % MAXFRAGNUM, e % MAXFRAGNUM)[q % MAXFRAGNUM] ==
            if q <= e then slots[q % MAXFRAGNUM].(data := [], flags := 0) else slots[q % MAXFRAGNUM]
    decreases e - b
  {
    hide ClearAll;
    Step(slots, b, e);
    if b == e {
      SameSlot(b, q);
    } else {
      var c := Clear(slots, b % MAXFRAGNUM);
      SameSlot(b, q);
      if b < q {
        ClearAllAt(c, b + 1, e, q);
      } else {
        WholeTurns(q, 1);
        ClearAllAt(c, b + 1, e, q + MAXFRAGNUM);
      }
    }
  }

  /** Once a complete frame is emptied, the window starts behind it. */
  lemma ClearedWindow(r: Ring, b: nat, s: seq<Slot>, got: set<nat>, e: nat)
    requires Stream(s) && Window(r, b, s, got) && Complete(s, got, b) && LastOf(s, b).value == e
    ensures e < b + MAXFRAGNUM
    ensures var r' := Ring(ClearAll(r.slots, r.index, e % MAXFRAGNUM), (e + 1) % MAXFRAGNUM, (e + 1) % WORD);
            Window(r', e + 1, s, got)
  {
    hide ClearAll, LastOf, Begins, Ends, Reach;
    assert e in got;
    var c := ClearAll(r.slots, r.index, e % MAXFRAGNUM);
    forall q | q in got && q >= e + 1
      ensures q < e + 1 + MAXFRAGNUM && c[q % MAXFRAGNUM] == s[q]
    {
      ClearAllAt(r.slots, b, e, q);
    }
    forall i | 0 <= i < MAXFRAGNUM && Full(c[i])
      ensures Reach(e + 1, i) in got
    {
      var q := Reach(b, i);
      ClearAllAt(r.slots, b, e, q);
      SlotOf(r, b, s, got, q);
      ReachOf(e + 1, q);
    }
    NextFrame(s, b);
  }

  lemma NextFrame(s: seq<Slot>, b: nat)
    requires Stream(s) && LastOf(s, b).Some?
    ensures FrameStart(s, LastOf(s, b).value + 1)
  {
  }

  /** Assembling takes the frame at the start, if it is complete, and asks for more unless nothing is there. */
  lemma AssembleWindow(r: Ring, b: nat, s: seq<Slot>, got: set<nat>, m: U32)
    requires Stream(s) && Window(r, b, s, got)
    ensures var a := Assemble(r, m);
            if Complete(s, got, b) then
              var e := LastOf(s, b).value; var w := Whole(s, b, e);
              && Window(a.ring, e + 1, s, got)
              && a.frames == (if 4 + |w| > MAXETHER then [] else [w])
              && (a.next == Find <==> (e + 1) % WORD <= m) && (a.next == Stop ==> e + 1 !in got)
            else
              a == Assembly(r, [], Stop)
  {
    hide Window, Stream, Complete, LastOf, EndFrom, Data, ClearAll, Whole, Next, Begins;
    WindowShape(r, b, s, got);
    SlotOf(r, b, s, got, b);
    CompleteNext(s, got, b);
    EndFromIs(r, b, s, got, b, MAXFRAGNUM);
    if Complete(s, got, b) {
      AllThere(s, got, b);
      var e := LastOf(s, b).value;
      ClearedWindow(r, b, s, got, e);
      SlotOf(r, b, s, got, e);
      DataIs(r, b, s, got, b, e);
      NextIs(e);
      NextWordIs(e);
      var r' := Ring(ClearAll(r.slots, r.index, e % MAXFRAGNUM), (e + 1) % MAXFRAGNUM, (e + 1) % WORD);
      WindowShape(r', e + 1, s, got);
      SlotOf(r', e + 1, s, got, e + 1);
    } else {
      StartBegins(s, b);
    }
  }

  lemma NextWordIs(x: nat)
    ensures (x % WORD + 1) % WORD == (x + 1) % WORD
  {
  }

  lemma StartBegins(s: seq<Slot>, b: nat)
    requires FrameStart(s, b)
    ensures b < |s| ==> Begins(s[b])
  {
  }

  lemma AllThere(s: seq<Slot>, got: set<nat>, b: nat)
    requires Complete(s, got, b)
    ensures LastOf(s, b).Some? && forall q :: b <= q <= LastOf(s, b).value ==> q in got
  {
  }

  // ---- the search ----

  /** Nothing has come that is in a later round of 2^32 numbers than `lead`, which is M without bound. */
  ghost predicate Newest(got: set<nat>, lead: nat) {
    (lead > 0 ==> lead in got) && forall q :: q in got ==> q / WORD <= lead / WORD
  }

  /** M has passed the begin of a frame that is later than the one at `b`. */
  ghost predicate Overtaken(s: seq<Slot>, got: set<nat>, b: nat, lead: nat) {
    b / WORD == lead / WORD && exists x :: x in got && b < x < lead && x < |s| && Begins(s[x])
  }

  /** M is the largest word, in the middle of a frame. */
  predicate Stranded(s: seq<Slot>, lead: nat) {
    lead % WORD == WORD - 1 && lead < |s| && !Begins(s[lead])
  }

  /** When the search has anything to do: M is ahead in the same round, or nothing is there at all. */
  lemma SearchCases(r: Ring, b: nat, s: seq<Slot>, got: set<nat>, lead: nat)
    requires Window(r, b, s, got) && Newest(got, lead) && lead < b + MAXFRAGNUM && b % WORD < lead % WORD
    ensures (b / WORD == lead / WORD && b < lead) || Barren(r.slots)
  {
    hide Reach;
    if b / WORD < lead / WORD {
      RoundsApart(b, lead);
    } else if b / WORD == lead / WORD {
      SameRound(b, lead);
    } else {
      forall q | q in got
        ensures q < b
      {
        Earlier(q, b);
      }
    }
  }

  lemma Earlier(q: nat, b: nat)
    requires q / WORD < b / WORD
    ensures q < b
  {
  }

  lemma SameRound(b: nat, lead: nat)
    requires b / WORD == lead / WORD
    ensures lead % WORD - b % WORD == lead - b
  {
    assert b == WORD * (b / WORD) + b % WORD && lead == WORD * (lead / WORD) + lead % WORD;
  }

  lemma NotEarlier(b: nat, q: nat)
    requires b <= q
    ensures b / WORD <= q / WORD
  {
  }

  lemma RoundsApart(b: nat, lead: nat)
    requires b / WORD < lead / WORD
    ensures lead - b >= WORD + lead % WORD - b % WORD
  {
    var j, k := b / WORD, lead / WORD;
    assert b == WORD * j + b % WORD && lead == WORD * k + lead % WORD;
    assert WORD * k >= WORD * (j + 1);
  }

  /** No slot is occupied. */
  ghost predicate Barren(slots: seq<Slot>) {
    forall i :: 0 <= i < |slots| ==> !Full(slots[i])
  }

  lemma {:induction false} BarrenSearch(r: Ring, x: U32, m: U32)
    requires Shape(r) && Barren(r.slots)
    ensures FindFrame(r, x % MAXFRAGNUM, x, m) == r
    decreases Laps(r.slots, x, m)
  {
    hide FindEnd, Laps, Full, Next;
    if x < m {
      StepOn(r.slots, x, m);
      BarrenSearch(r, x + 1, m);
    }
  }

  /** Where the walk to the end of a frame stops: the end, something missing, or M. */
  function Gap(s: seq<Slot>, got: set<nat>, x: nat, lead: nat): (y: nat)
    requires x <= lead
    ensures x <= y <= lead
    decreases lead - x
  {
    if x == lead || x !in got || x >= |s| || Ends(s[x]) then x else Gap(s, got, x + 1, lead)
  }

  /** The walk passes what has come and does not end a frame. */
  lemma {:induction false} GapBelow(s: seq<Slot>, got: set<nat>, x: nat, lead: nat, z: nat)
    requires x <= lead && x <= z < Gap(s, got, x, lead)
    ensures z in got && z < |s| && !Ends(s[z])
    decreases lead - x
  {
    hide Ends;
    if z > x { GapBelow(s, got, x + 1, lead, z); }
  }

  /** Numbers of one round compare as their words do. */
  lemma Within(x: nat, lead: nat)
    requires x <= lead && x / WORD == lead / WORD
    ensures lead % WORD - x % WORD == lead - x
    ensures x < lead ==> (x + 1) / WORD == lead / WORD && (x + 1) % WORD == x % WORD + 1
  {
    assert x == WORD * (x / WORD) + x % WORD && lead == WORD * (lead / WORD) + lead % WORD;
    if x < lead {
      assert x % WORD + 1 < WORD;
      assert x + 1 == WORD * (x / WORD) + (x % WORD + 1);
      Quotient(x + 1, x / WORD, x % WORD + 1);
    }
  }

  lemma Quotient(x: nat, k: nat, d: nat)
    requires x == WORD * k + d && d < WORD
    ensures x / WORD == k && x % WORD == d
  {
  }

  /** The slots that hold the numbers from `b` on hold what has come, or have been emptied since. */
  ghost predicate Matches(slots: seq<Slot>, b: nat, s: seq<Slot>, got: set<nat>) {
    |slots| == MAXFRAGNUM && forall i {:trigger slots[i]} :: 0 <= i < MAXFRAGNUM && Full(slots[i]) ==>
      var q := Reach(b, i); q in got && q < |s| && slots[i] == s[q]
  }

  lemma WindowMatches(r: Ring, b: nat, s: seq<Slot>, got: set<nat>)
    requires Window(r, b, s, got)
    ensures Matches(r.slots, b, s, got)
  {
    hide Reach;
  }

  lemma MatchesAt(slots: seq<Slot>, b: nat, s: seq<Slot>, got: set<nat>, x: nat)
    requires Stream(s) && Matches(slots, b, s, got) && b <= x < b + MAXFRAGNUM
    ensures Full(slots[x % MAXFRAGNUM]) ==> x in got && x < |s| && slots[x % MAXFRAGNUM] == s[x] && s[x].num == x % WORD
  {
    hide Reach;
    ReachOf(b, x);
  }

  lemma {:induction false} FindEndIs(r: Ring, b: nat, s: seq<Slot>, got: set<nat>, x: nat, lead: nat)
    requires Stream(s) && Window(r, b, s, got) && b <= x <= lead < b + MAXFRAGNUM && x / WORD == lead / WORD
    ensures var e, y := FindEnd(r.slots, x % MAXFRAGNUM, x % WORD, lead % WORD), Gap(s, got, x, lead);
            e == Search(r.slots, y % MAXFRAGNUM, y % WORD, y < lead && y in got)
    decreases lead - x
  {
    hide Window, Stream, Next, Full, Ends;
    WindowShape(r, b, s, got);
    NextIs(x);
    Within(x, lead);
    if x < lead {
      SlotOf(r, b, s, got, x);
      if x in got && !Ends(s[x]) { FindEndIs(r, b, s, got, x + 1, lead); }
    }
  }

  /** The search passes over what does not begin a frame. */
  lemma {:induction false} QuietScan(r: Ring, b: nat, s: seq<Slot>, got: set<nat>, x: nat, lead: nat)
    requires Stream(s) && Window(r, b, s, got) && b <= x <= lead < b + MAXFRAGNUM && x / WORD == lead / WORD
    requires forall z :: z in got && x <= z < lead && z < |s| ==> !Begins(s[z])
    ensures x % WORD % MAXFRAGNUM == x % MAXFRAGNUM && FindFrame(r, x % MAXFRAGNUM, x % WORD, lead % WORD) == r
    decreases lead - x
  {
    hide Window, Stream, Next, Full, Begins, FindEnd, Laps;
    WindowShape(r, b, s, got);
    WordIndex(x);
    Within(x, lead);
    if x < lead {
      NextIs(x);
      StepOn(r.slots, x % WORD, lead % WORD);
      SlotOf(r, b, s, got, x);
      QuietScan(r, b, s, got, x + 1, lead);
    }
  }

  /** A frame with a gap before M is not complete, and one that M is in the middle of does not end there. */
  lemma {:induction false} GapMeans(s: seq<Slot>, got: set<nat>, b: nat, lead: nat)
    requires b <= lead
    ensures var y := Gap(s, got, b, lead);
            if y == lead then true
            else if y in got && y < |s| then LastOf(s, b) == Some(y) && Complete(s, got, b) else !Complete(s, got, b)
    decreases lead - b
  {
    hide Complete, LastOf;
    CompleteNext(s, got, b);
    if b < lead && b in got && b < |s| && !Ends(s[b]) { GapMeans(s, got, b + 1, lead); }
  }

  /** The search for a frame changes nothing when the frame at the start is complete or not overtaken, and M is
      not the largest word in the middle of a frame. */
  lemma FindFrameIdle(r: Ring, b: nat, s: seq<Slot>, got: set<nat>, lead: nat)
    requires Stream(s) && Window(r, b, s, got) && Newest(got, lead) && lead < b + MAXFRAGNUM
    requires !Stranded(s, lead) && (Complete(s, got, b) || !Overtaken(s, got, b, lead))
    ensures r.index == r.start % MAXFRAGNUM && FindFrame(r, r.index, r.start, lead % WORD) == r
  {
    hide Window, FindEnd, Complete, Stream, Laps;
    WindowShape(r, b, s, got);
    WordIndex(b);
    if r.start < lead % WORD {
      SearchCases(r, b, s, got, lead);
      if Barren(r.slots) {
        BarrenSearch(r, r.start, lead % WORD);
      } else {
        SearchStep(r, b, s, got, lead);
      }
    }
  }

  /** The first round of a search with M ahead. */
  lemma SearchStep(r: Ring, b: nat, s: seq<Slot>, got: set<nat>, lead: nat)
    requires Stream(s) && Window(r, b, s, got) && Newest(got, lead) && b < lead < b + MAXFRAGNUM
    requires b / WORD == lead / WORD
    requires !Stranded(s, lead) && (Complete(s, got, b) || !Overtaken(s, got, b, lead))
    ensures r.index == r.start % MAXFRAGNUM && FindFrame(r, r.index, r.start, lead % WORD) == r
  {
    hide Window, FindEnd, Complete, Laps, Full, Begins, Ends, Stream, Overtaken, Stranded, Gap, FindFrame;
    WindowShape(r, b, s, got);
    WordIndex(b);
    SlotOf(r, b, s, got, b);
    if b in got {
      FromBegin(r, b, s, got, lead);
      var y := Gap(s, got, b, lead);
      if y < lead && y !in got {
        GapMeans(s, got, b, lead);
        NothingLater(s, got, b, lead);
        Between(b, y, lead);
        QuietScan(r, b, s, got, y + 1, lead);
      } else if y == lead {
        NotStranded(r, b, s, got, lead);
      }
    } else {
      CompleteNext(s, got, b);
      NothingLater(s, got, b, lead);
      QuietScan(r, b, s, got, b, lead);
    }
  }

  lemma NothingLater(s: seq<Slot>, got: set<nat>, b: nat, lead: nat)
    requires !Overtaken(s, got, b, lead) && b / WORD == lead / WORD
    ensures forall z :: z in got && b < z < lead && z < |s| ==> !Begins(s[z])
  {
  }

  lemma NotStranded(r: Ring, b: nat, s: seq<Slot>, got: set<nat>, lead: nat)
    requires Stream(s) && Window(r, b, s, got) && Newest(got, lead) && b < lead && Gap(s, got, b, lead) == lead
    requires !Stranded(s, lead)
    ensures lead % WORD < WORD - 1
  {
    hide Window, Stream, Begins, Ends, Gap;
    assert lead < |s| by { InStream(r, b, s, got, lead); }
    GapBelow(s, got, b, lead, lead - 1);
    BeginsAt(s, lead);
  }

  lemma BeginsAt(s: seq<Slot>, q: nat)
    requires Stream(s) && 0 < q < |s|
    ensures Begins(s[q]) <==> Ends(s[q - 1])
  {
  }

  /** The search from a begin: it goes on behind the gap, if there is one before M. */
  lemma FromBegin(r: Ring, b: nat, s: seq<Slot>, got: set<nat>, lead: nat)
    requires Stream(s) && Window(r, b, s, got) && b in got && b < lead < b + MAXFRAGNUM && b / WORD == lead / WORD
    ensures r.index == r.start % MAXFRAGNUM
    ensures var y := Gap(s, got, b, lead);
            && (y + 1) % WORD % MAXFRAGNUM == (y + 1) % MAXFRAGNUM
            && FindFrame(r, r.index, r.start, lead % WORD) ==
               (if y < lead && y in got then r else FindFrame(r, (y + 1) % MAXFRAGNUM, (y + 1) % WORD, lead % WORD))
            && (y == lead && lead % WORD < WORD - 1 ==> FindFrame(r, r.index, r.start, lead % WORD) == r)
  {
    hide Window, FindEnd, Laps, Full, Begins, Ends, Stream, FindFrame, Gap;
    WindowShape(r, b, s, got);
    WordIndex(b);
    SameRound(b, lead);
    SlotOf(r, b, s, got, b);
    StartBegins(s, b);
    FindEndIs(r, b, s, got, b, lead);
    var y := Gap(s, got, b, lead);
    FoundAt(r, b, y, lead, y < lead && y in got);
  }

  lemma InStream(r: Ring, b: nat, s: seq<Slot>, got: set<nat>, q: nat)
    requires Window(r, b, s, got)
    ensures q in got ==> q < |s|
  {
  }

  lemma Between(b: nat, y: nat, lead: nat)
    requires b <= y < lead && b / WORD == lead / WORD
    ensures (y + 1) / WORD == lead / WORD && (y + 1) % WORD == y % WORD + 1
  {
    Within(b, lead);
    NotEarlier(b, y);
    NotEarlier(y, lead);
    Within(y, lead);
  }

  /** What the search does at a begin, given what the walk to the end comes to. */
  lemma FoundAt(r: Ring, b: nat, y: nat, lead: nat, found: bool)
    requires Shape(r) && r.start == b % WORD && r.index == b % MAXFRAGNUM && r.start % MAXFRAGNUM == r.index
    requires b <= y <= lead && r.start < lead % WORD
    requires Full(r.slots[r.index]) && r.slots[r.index].num == r.start && Begins(r.slots[r.index])
    requires FindEnd(r.slots, r.index, r.start, lead % WORD) == Search(r.slots, y % MAXFRAGNUM, y % WORD, found)
    ensures (y + 1) % WORD % MAXFRAGNUM == (y + 1) % MAXFRAGNUM
    ensures FindFrame(r, r.index, r.start, lead % WORD) ==
            if found then r else FindFrame(r, (y + 1) % MAXFRAGNUM, (y + 1) % WORD, lead % WORD)
    ensures y == lead && lead % WORD < WORD - 1 && !found ==> FindFrame(r, r.index, r.start, lead % WORD) == r
  {
    hide FindEnd, Laps, Full, Begins, Next;
    WordIndex(y + 1);
    NextIs(y);
    NextWordIs(y);
    SearchOn(r.slots, r.start, lead % WORD);
    StepOn(r.slots, r.start, lead % WORD);
  }

  // ---- delivering ----

  /** The whole loop delivers all frames that are complete and stops at the first that is not. */
  lemma {:induction false} PumpWindow(r: Ring, b: nat, s: seq<Slot>, got: set<nat>, lead: nat, find: bool)
    requires Stream(s) && Window(r, b, s, got) && Newest(got, lead) && lead < b + MAXFRAGNUM
    requires !Stranded(s, lead) && !Overtaken(s, got, Bound(s, got, b), lead)
    ensures Congruent(r)
    ensures var p := Pump(r, lead % WORD, find);
            Window(p.ring, Bound(s, got, b), s, got) && p.frames == Frames(s, got, b)
    decreases |s| - b
  {
    hide Window, Stream, Complete, LastOf, Whole, Assemble, FindFrame, Occupied, Placed, Stranded, Overtaken, Newest;
    WindowCongruent(r, b, s, got);
    FindFrameIdle(r, b, s, got, lead);
    AssembleWindow(r, b, s, got, lead % WORD);
    RoundKeeps(r, lead % WORD, find);
    var a := Assemble(r, lead % WORD);
    if Complete(s, got, b) {
      AllThere(s, got, b);
      var e := LastOf(s, b).value;
      if a.next == Stop {
        CompleteNext(s, got, e + 1);
      } else {
        PumpWindow(a.ring, e + 1, s, got, lead, a.next == Find);
      }
    }
  }

  // ---- where the words wrap ----

  /** Of the frame at `b`, fragment `z` is missing. */
  ghost predicate Lacks(s: seq<Slot>, got: set<nat>, b: nat, z: nat) {
    && b <= z < |s| && z !in got && FrameStart(s, b)
    && forall x :: b <= x < z ==> !Ends(s[x])
  }

  /** The start has been moved on, to `t`, past the number `z`; the slots still hold only what has come. */
  ghost predicate Past(r: Ring, b: nat, z: nat, t: nat, s: seq<Slot>, got: set<nat>) {
    Congruent(r) && b <= z < t <= b + MAXFRAGNUM && r.start == t % WORD && Matches(r.slots, b, s, got)
  }

  lemma {:induction false} LackingIsIncomplete(s: seq<Slot>, got: set<nat>, b: nat, z: nat)
    requires b <= z < |s| && z !in got && forall x :: b <= x < z ==> !Ends(s[x])
    ensures !Complete(s, got, b)
    decreases z - b
  {
    hide Complete, LastOf, Ends;
    CompleteNext(s, got, b);
    if b < z && b in got { LackingIsIncomplete(s, got, b + 1, z); }
  }

  lemma {:induction false} FindEndQuiet(slots: seq<Slot>, b: nat, s: seq<Slot>, got: set<nat>, x: nat, lead: nat)
    returns (y: nat)
    requires Stream(s) && Matches(slots, b, s, got) && b <= x <= lead < b + MAXFRAGNUM && x / WORD == lead / WORD
    ensures x <= y <= lead
    ensures var e := FindEnd(slots, x % MAXFRAGNUM, x % WORD, lead % WORD);
            e.slots == slots && e.i == y % MAXFRAGNUM && e.b == y % WORD
    decreases lead - x
  {
    hide Matches, Stream, Next, Full, Ends;
    NextIs(x);
    SameRound(x, lead);
    MatchesAt(slots, b, s, got, x);
    y := x;
    assert |slots| == MAXFRAGNUM by { MatchesSize(slots, b, s, got); }
    if x < lead && Full(slots[x % MAXFRAGNUM]) && !Ends(slots[x % MAXFRAGNUM]) {
      Within(x, lead);
      y := FindEndQuiet(slots, b, s, got, x + 1, lead);
    }
  }

  lemma MatchesSize(slots: seq<Slot>, b: nat, s: seq<Slot>, got: set<nat>)
    requires Matches(slots, b, s, got)
    ensures |slots| == MAXFRAGNUM
  {
  }

  /** A search from `x` on only moves the start forward. */
  lemma {:induction false} ScanAhead(r: Ring, b: nat, z: nat, t: nat, s: seq<Slot>, got: set<nat>, x: nat, lead: nat)
    returns (t': nat)
    requires Stream(s) && Past(r, b, z, t, s, got) && z < x <= lead + 1 && lead < b + MAXFRAGNUM
    requires b / WORD == lead / WORD && lead % WORD < WORD - 1
    ensures x % WORD % MAXFRAGNUM == x % MAXFRAGNUM
    ensures Past(FindFrame(r, x % MAXFRAGNUM, x % WORD, lead % WORD), b, z, t', s, got)
    decreases lead + 1 - x
  {
    hide Matches, Stream, Next, Full, Begins, FindEnd, Laps, Placed;
    WordIndex(x);
    if x > lead {
      NextWordIs(lead);
      t' := t;
    } else {
      NotEarlier(b, x);
      NotEarlier(x, lead);
      SameRound(x, lead);
      NextWordIs(x);
      NextIs(x);
      MatchesAt(r.slots, b, s, got, x);
      if x == lead {
        t' := t;
      } else {
        StepOn(r.slots, x % WORD, lead % WORD);
        Within(x, lead);
        var i := x % MAXFRAGNUM;
        if Full(r.slots[i]) && Begins(r.slots[i]) {
          SearchOn(r.slots, x % WORD, lead % WORD);
          var y := FindEndQuiet(r.slots, b, s, got, x, lead);
          var r' := Ring(r.slots, i, x % WORD);
          NextIs(y);
          NextWordIs(y);
          t' := ScanAhead(r', b, z, x, s, got, y + 1, lead);
          if FindEnd(r.slots, i, x % WORD, lead % WORD).found { t' := x; }
        } else {
          t' := ScanAhead(r, b, z, t, s, got, x + 1, lead);
        }
      }
    }
  }

  /** With a later begin in its way it does move. */
  lemma {:induction false} ScanMoves(r: Ring, b: nat, z: nat, s: seq<Slot>, got: set<nat>, x: nat, lead: nat, w: nat)
    returns (t': nat)
    requires Stream(s) && Window(r, b, s, got) && b <= z <= x <= w < lead < b + MAXFRAGNUM && z !in got
    requires w in got && w < |s| && Begins(s[w]) && b / WORD == lead / WORD && lead % WORD < WORD - 1
    ensures x % WORD % MAXFRAGNUM == x % MAXFRAGNUM
    ensures Past(FindFrame(r, x % MAXFRAGNUM, x % WORD, lead % WORD), b, z, t', s, got)
    decreases lead - x
  {
    hide Window, Stream, Next, Full, Begins, FindEnd, Laps, Placed, Matches;
    WindowShape(r, b, s, got);
    WindowCongruent(r, b, s, got);
    WindowMatches(r, b, s, got);
    WordIndex(x);
    NotEarlier(b, x);
    NotEarlier(x, lead);
    Within(x, lead);
    NextIs(x);
    StepOn(r.slots, x % WORD, lead % WORD);
    SlotOf(r, b, s, got, x);
    var i := x % MAXFRAGNUM;
    if Full(r.slots[i]) && Begins(r.slots[i]) {
      SearchOn(r.slots, x % WORD, lead % WORD);
      var y := FindEndQuiet(r.slots, b, s, got, x, lead);
      var r' := Ring(r.slots, i, x % WORD);
      NextIs(y);
      NextWordIs(y);
      t' := ScanAhead(r', b, z, x, s, got, y + 1, lead);
      if FindEnd(r.slots, i, x % WORD, lead % WORD).found { t' := x; }
    } else {
      t' := ScanMoves(r, b, z, s, got, x + 1, lead, w);
    }
  }

  lemma GapBefore(s: seq<Slot>, got: set<nat>, b: nat, lead: nat, z: nat)
    requires Stream(s) && b < z < lead && z < |s| && Begins(s[z])
    ensures Gap(s, got, b, lead) < z
  {
    hide Gap, Stream, Begins, Ends;
    BeginsAt(s, z);
    if z - 1 < Gap(s, got, b, lead) { GapBelow(s, got, b, lead, z - 1); }
  }

  /** What is missing from an overtaken frame is missing before the begin that M has passed. */
  lemma MissingIs(s: seq<Slot>, got: set<nat>, b: nat, lead: nat, w: nat)
    requires Stream(s) && FrameStart(s, b) && !Complete(s, got, b)
    requires b < w < lead && w < |s| && Begins(s[w]) && forall q :: q in got ==> q < |s|
    ensures var z := Gap(s, got, b, lead); z < w && Lacks(s, got, b, z)
  {
    hide Gap, Stream, Begins, Ends, Complete, FrameStart;
    var z := Gap(s, got, b, lead);
    GapMeans(s, got, b, lead);
    GapBefore(s, got, b, lead, w);
    forall x | b <= x < z
      ensures !Ends(s[x])
    {
      GapBelow(s, got, b, lead, x);
    }
  }

  /** An overtaken start is moved away, past what is missing. */
  lemma SearchMoves(r: Ring, b: nat, s: seq<Slot>, got: set<nat>, lead: nat) returns (z: nat, t: nat)
    requires Stream(s) && Window(r, b, s, got) && lead < b + MAXFRAGNUM && lead % WORD < WORD - 1
    requires Overtaken(s, got, b, lead) && !Complete(s, got, b)
    ensures r.index == r.start % MAXFRAGNUM && Lacks(s, got, b, z)
    ensures Past(FindFrame(r, r.index, r.start, lead % WORD), b, z, t, s, got)
  {
    hide Window, Stream, FindFrame, Complete, Matches, Placed, Begins, Ends, FrameStart;
    var w :| w in got && b < w < lead && w < |s| && Begins(s[w]);
    WindowShape(r, b, s, got);
    AllInStream(r, b, s, got);
    WordIndex(b);
    z := Gap(s, got, b, lead);
    MissingIs(s, got, b, lead, w);
    if b in got {
      FromBegin(r, b, s, got, lead);
      t := ScanMoves(r, b, z, s, got, z + 1, lead, w);
    } else {
      t := ScanMoves(r, b, z, s, got, b, lead, w);
    }
  }

  lemma ClearMatches(slots: seq<Slot>, b: nat, s: seq<Slot>, got: set<nat>, i: nat)
    requires Matches(slots, b, s, got) && i < MAXFRAGNUM
    ensures Matches(Clear(slots, i), b, s, got)
  {
  }

  lemma {:induction false} ClearAllMatches(slots: seq<Slot>, b: nat, s: seq<Slot>, got: set<nat>, i: nat, e: nat)
    requires Matches(slots, b, s, got) && |slots| == MAXFRAGNUM && i < MAXFRAGNUM && e < MAXFRAGNUM
    ensures Matches(ClearAll(slots, i, e), b, s, got)
    decreases Ahead(i, e)
  {
    hide Matches;
    ClearMatches(slots, b, s, got, i);
    if i != e { ClearAllMatches(Clear(slots, i), b, s, got, Next(i), e); }
  }

  /** No assembly brings the start back: the frame that leaves does not end before `z`. */
  lemma AssembleAhead(r: Ring, b: nat, z: nat, t: nat, s: seq<Slot>, got: set<nat>, m: U32) returns (t': nat)
    requires Stream(s) && Past(r, b, z, t, s, got) && Lacks(s, got, b, z)
    ensures Past(Assemble(r, m).ring, b, z, t', s, got)
  {
    hide Matches, Stream, ClearAll, EndFrom, Data, Placed, Next, Full, Begins, Ends, FrameStart;
    AssembleCongruent(r, m);
    t' := t;
    if Full(r.slots[r.index]) {
      if !Begins(r.slots[r.index]) {
        NextWordIs(t);
        NotAtBegin(r, b, z, t, s, got);
        t' := t + 1;
      } else if EndFrom(r.slots, r.index, MAXFRAGNUM).Some? {
        var e := EndFrom(r.slots, r.index, MAXFRAGNUM).value;
        var q := Reach(b, e);
        MatchesAt(r.slots, b, s, got, q);
        NextWordIs(q);
        t' := q + 1;
        ClearAllMatches(r.slots, b, s, got, r.index, e);
        ClearMatches(ClearAll(r.slots, r.index, e), b, s, got, Next(e));
      }
    }
  }

  lemma NotAtBegin(r: Ring, b: nat, z: nat, t: nat, s: seq<Slot>, got: set<nat>)
    requires Stream(s) && Past(r, b, z, t, s, got) && Lacks(s, got, b, z)
    requires Full(r.slots[r.index]) && !Begins(r.slots[r.index])
    ensures t < b + MAXFRAGNUM
  {
    hide Matches, Stream, Placed, Full, Begins, Ends;
    if t == b + MAXFRAGNUM {
      WordIndex(t);
      WholeTurns(b, 1);
      MatchesAt(r.slots, b, s, got, b);
      StartBegins(s, b);
    }
  }

  lemma WordsDiffer(b: nat, t: nat)
    requires b < t < b + WORD
    ensures b % WORD != t % WORD
  {
    assert b == WORD * (b / WORD) + b % WORD && t == WORD * (t / WORD) + t % WORD;
  }

  lemma FarFromWrap(b: nat, t: nat)
    requires b <= t && b % WORD + (t - b) < WORD
    ensures t % WORD == b % WORD + (t - b) && t / WORD == b / WORD
  {
    Quotient(t, b / WORD, b % WORD + (t - b));
  }

  /** A start that has been moved past what is missing stays past it. */
  lemma {:induction false} PumpAhead(r: Ring, b: nat, z: nat, t: nat, s: seq<Slot>, got: set<nat>, lead: nat,
      find: bool)
    returns (t': nat)
    requires Stream(s) && Past(r, b, z, t, s, got) && Lacks(s, got, b, z)
    requires lead < b + MAXFRAGNUM && b / WORD == lead / WORD && b % WORD + 0x400 < WORD
    ensures Past(Pump(r, lead % WORD, find).ring, b, z, t', s, got)
    decreases Occupied(r.slots)
  {
    hide Matches, Stream, Assemble, FindFrame, Occupied, Placed, Lacks;
    var m, t1 := lead % WORD, t;
    RoundKeeps(r, m, find);
    FarFromWrap(b, t);
    if b < lead { FarFromWrap(b, lead); }
    if find {
      if t <= lead {
        t1 := ScanAhead(r, b, z, t, s, got, t, lead);
      } else {
        BehindStart(r, m);
      }
    }
    var r' := if find then FindFrame(r, r.index, r.start, m) else r;
    t' := AssembleAhead(r', b, z, t1, s, got, m);
    var a := Assemble(r', m);
    if a.next != Stop { t' := PumpAhead(a.ring, b, z, t', s, got, lead, a.next == Find); }
  }

  lemma PastIsAway(r: Ring, b: nat, z: nat, t: nat, s: seq<Slot>, got: set<nat>)
    requires Past(r, b, z, t, s, got)
    ensures !Window(r, b, s, got)
  {
    hide Window, Matches, Placed;
    WordsDiffer(b, t);
    StartOf(r, b, s, got);
  }

  lemma BehindStart(r: Ring, m: U32)
    requires Shape(r) && r.index == r.start % MAXFRAGNUM && m <= r.start
    ensures FindFrame(r, r.index, r.start, m) == r
  {
  }

  /** Searching first and going on is the same as going on from the ring searched. */
  lemma PumpSearched(r: Ring, m: U32)
    requires Congruent(r)
    ensures Congruent(FindFrame(r, r.index, r.start, m))
    ensures Pump(r, m, true) == Pump(FindFrame(r, r.index, r.start, m), m, false)
  {
    hide FindFrame, Assemble, Occupied, Placed;
    FindFrameCongruent(r, r.index, r.start, m);
  }

  /** When the first incomplete frame has been overtaken, the loop leaves the start past what it lacks. */
  lemma {:induction false} PumpAstray(r: Ring, b: nat, s: seq<Slot>, got: set<nat>, lead: nat, find: bool)
    returns (z: nat, t: nat)
    requires Stream(s) && Window(r, b, s, got) && Newest(got, lead) && lead < b + MAXFRAGNUM
    requires var c := Bound(s, got, b); Overtaken(s, got, c, lead) && c % WORD + 0x400 < WORD
    requires find || b / WORD != lead / WORD || b >= lead
    ensures Congruent(r) && Lacks(s, got, Bound(s, got, b), z)
    ensures Past(Pump(r, lead % WORD, find).ring, Bound(s, got, b), z, t, s, got)
    decreases |s| - b
  {
    hide Window, Stream, Complete, LastOf, Whole, Assemble, FindFrame, Occupied, Placed, Stranded, Newest, Lacks,
         Matches;
    var m, c := lead % WORD, Bound(s, got, b);
    WindowCongruent(r, b, s, got);
    assert c / WORD == lead / WORD && c < lead;
    FarFromWrap(c, lead);
    if Complete(s, got, b) {
      assert !Stranded(s, lead) by { NotLargest(s, lead); }
      FindFrameIdle(r, b, s, got, lead);
      AssembleWindow(r, b, s, got, m);
      RoundKeeps(r, m, find);
      AllThere(s, got, b);
      var a, e := Assemble(r, m), LastOf(s, b).value;
      CompleteNext(s, got, e + 1);
      assert c == Bound(s, got, e + 1);
      if (e + 1) / WORD == lead / WORD && e + 1 < lead { SameRound(e + 1, lead); }
      assert a.next != Stop;
      z, t := PumpAstray(a.ring, e + 1, s, got, lead, a.next == Find);
    } else {
      z, t := SearchMoves(r, b, s, got, lead);
      PumpSearched(r, m);
      t := PumpAhead(FindFrame(r, r.index, r.start, m), b, z, t, s, got, lead, false);
    }
  }

  lemma NotLargest(s: seq<Slot>, lead: nat)
    requires lead % WORD < WORD - 1
    ensures !Stranded(s, lead)
  {
  }

  lemma StartOf(r: Ring, b: nat, s: seq<Slot>, got: set<nat>)
    ensures Window(r, b, s, got) ==> r.start == b % WORD
  {
  }

  /** One lap of the count meets every fragment under another number and clears it. */
  lemma {:induction false} LapClears(r: Ring, x: U32)
    requires Shape(r) && x <= MAXFRAGNUM && (forall i :: 0 <= i < x ==> !Full(r.slots[i]))
    requires forall i :: 0 <= i < MAXFRAGNUM && Full(r.slots[i]) ==> r.slots[i].num >= MAXFRAGNUM
    ensures var r' := FindFrame(r, x % MAXFRAGNUM, x, WORD - 1); Barren(r'.slots) && r'.start == r.start
    decreases MAXFRAGNUM - x
  {
    hide FindEnd, Laps, Full, Next;
    if x == MAXFRAGNUM {
      BarrenSearch(r, x, WORD - 1);
    } else {
      StepOn(r.slots, x, WORD - 1);
      NextIs(x);
      ClearedIsEmpty(r.slots, x);
      LapClears(if Full(r.slots[x]) then r.(slots := Clear(r.slots, x)) else r, x + 1);
    }
  }

  /** When M is the largest word in the middle of a frame, the loop clears what has come of that frame. */
  lemma {:induction false} PumpStranded(r: Ring, b: nat, s: seq<Slot>, got: set<nat>, lead: nat)
    requires Stream(s) && Window(r, b, s, got) && Newest(got, lead) && b < lead < b + MAXFRAGNUM
    requires b / WORD == lead / WORD
    requires Stranded(s, lead) && forall q :: 0 <= q <= lead ==> q in got
    ensures Congruent(r) && !Window(Pump(r, WORD - 1, true).ring, Bound(s, got, b), s, got)
    decreases lead - b
  {
    hide Window, Stream, Complete, LastOf, Whole, Assemble, FindFrame, Occupied, Placed, Begins, Ends;
    WindowCongruent(r, b, s, got);
    FromBegin(r, b, s, got, lead);
    GapMeans(s, got, b, lead);
    RoundKeeps(r, WORD - 1, true);
    var y := Gap(s, got, b, lead);
    if y < lead {
      InStream(r, b, s, got, y);
      AssembleWindow(r, b, s, got, WORD - 1);
      Between(b, y, lead);
      BeginsAt(s, y + 1);
      PumpStranded(Assemble(r, WORD - 1).ring, y + 1, s, got, lead);
    } else {
      StrandedSearch(r, b, s, got, lead);
      PumpBarren(r, WORD - 1);
      NotBarren(Pump(r, WORD - 1, true).ring, b, Bound(s, got, b), s, got, lead);
    }
  }

  lemma StrandedSearch(r: Ring, b: nat, s: seq<Slot>, got: set<nat>, lead: nat)
    requires Stream(s) && Window(r, b, s, got) && Newest(got, lead) && b < lead < b + MAXFRAGNUM
    requires b / WORD == lead / WORD
    requires lead % WORD == WORD - 1 && b in got && Gap(s, got, b, lead) == lead
    ensures r.index == r.start % MAXFRAGNUM
    ensures var r' := FindFrame(r, r.index, r.start, WORD - 1); Barren(r'.slots) && r'.start == b % WORD
  {
    hide Window, Stream, FindFrame, Gap, Ends, Begins, Full, Reach;
    WindowShape(r, b, s, got);
    FromBegin(r, b, s, got, lead);
    NextWordIs(lead);
    forall i | 0 <= i < MAXFRAGNUM
      ensures Full(r.slots[i]) ==> r.slots[i].num >= MAXFRAGNUM
    {
      var q := Reach(b, i);
      SlotOf(r, b, s, got, q);
      if q in got { LargeWord(b, q, lead); }
    }
    LapClears(r, 0);
  }

  lemma LargeWord(b: nat, q: nat, lead: nat)
    requires b <= q < b + MAXFRAGNUM && lead < b + MAXFRAGNUM && q / WORD <= lead / WORD && lead % WORD == WORD - 1
    ensures q % WORD >= MAXFRAGNUM
  {
    if q / WORD < lead / WORD { RoundsApart(q, lead); } else { SameRound(q, lead); }
  }

  lemma PumpBarren(r: Ring, m: U32)
    requires Congruent(r) && Barren(FindFrame(r, r.index, r.start, m).slots)
    ensures Pump(r, m, true).ring == FindFrame(r, r.index, r.start, m)
  {
    hide FindFrame, Occupied, Placed;
  }

  lemma NotBarren(r: Ring, b: nat, c: nat, s: seq<Slot>, got: set<nat>, lead: nat)
    requires Stream(s) && Newest(got, lead) && lead in got && lead % WORD == WORD - 1
    requires Barren(r.slots) && r.start == b % WORD && b / WORD == lead / WORD && lead - MAXFRAGNUM < b < lead
    ensures !Window(r, c, s, got)
  {
    hide Stream, Full, Reach, Window, Newest;
    SameRound(b, lead);
    HeldOrPast(r, c, s, got, lead);
    StartOf(r, c, s, got);
  }

  lemma HeldOrPast(r: Ring, c: nat, s: seq<Slot>, got: set<nat>, lead: nat)
    requires Stream(s) && Newest(got, lead) && lead in got && lead % WORD == WORD - 1
    ensures Window(r, c, s, got) ==> Shape(r) && if c <= lead then Full(r.slots[lead % MAXFRAGNUM]) else c % WORD == 0
  {
    hide Stream, Full, Reach;
    if Window(r, c, s, got) {
      if c <= lead {
        SlotOf(r, c, s, got, lead);
      } else {
        assert c - 1 in got;
        NextWordIs(lead);
        NotEarlier(lead, c - 1);
        SameRound(lead, c - 1);
        assert c - 1 == lead;
      }
    }
  }

  // ---- one arrival at the ring ----

  lemma InsertedWindow(r: Ring, b: nat, s: seq<Slot>, got: set<nat>, q: nat)
    requires Stream(s) && Window(r, b, s, got) && q < |s| && q !in got && q < b + MAXFRAGNUM
    ensures b <= q && Window(r.(slots := r.slots[q % MAXFRAGNUM := s[q]]), b, s, got + {q})
  {
    hide Begins, Ends, Reach;
    assert q >= b;
    ReachOf(b, q);
    forall x | b <= x < b + MAXFRAGNUM && x % MAXFRAGNUM == q % MAXFRAGNUM
      ensures x == q
    {
      if x < q { SameSlot(x, q); } else { SameSlot(q, x); }
    }
  }

  /** A new fragment within reach finds its slot; its neighbours are where they belong. */
  lemma InsertWindow(r: Ring, b: nat, s: seq<Slot>, got: set<nat>, q: nat, m: U32)
    requires Stream(s) && Window(r, b, s, got) && q < |s| && q !in got && q < b + MAXFRAGNUM
    ensures Congruent(r) && q % MAXFRAGNUM == s[q].num % MAXFRAGNUM
    ensures var r0 := r.(slots := r.slots[q % MAXFRAGNUM := s[q]]);
            Window(r0, b, s, got + {q}) && Congruent(r0) && Insert(r, q % MAXFRAGNUM, s[q], m) == Pump(r0, m, true)
  {
    hide Insert, Pump, Window, Stray, Stream, Next, Placed;
    WindowShape(r, b, s, got);
    WindowCongruent(r, b, s, got);
    InsertedWindow(r, b, s, got, q);
    assert s[q].num == q % WORD by { NumIs(s, q); }
    WordIndex(q);
    var r0 := r.(slots := r.slots[q % MAXFRAGNUM := s[q]]);
    WindowCongruent(r0, b, s, got + {q});
    NextIs(q);
    NextWordIs(q);
    Neighbour(r0, b, s, got + {q}, q + 1);
    if q > b {
      Neighbour(r0, b, s, got + {q}, q - 1);
      Previous(q);
    }
    InsertPlain(r, s[q], m);
  }

  lemma NumIs(s: seq<Slot>, q: nat)
    requires Stream(s) && q < |s|
    ensures s[q].num == q % WORD
  {
  }

  /** With no stray neighbours a fragment goes straight on to the search. */
  lemma InsertPlain(r: Ring, f: Slot, m: U32)
    requires Congruent(r)
    requires var i := f.num % MAXFRAGNUM; var r0 := r.(slots := r.slots[i := f]);
             && Congruent(r0)
             && (Next(i) != r.index ==> !Stray(r0, Next(i), (f.num + 1) % WORD))
             && (i != r.index ==> !Stray(r0, (i - 1) % MAXFRAGNUM, (f.num - 1) % WORD))
    ensures var i := f.num % MAXFRAGNUM; Insert(r, i, f, m) == Pump(r.(slots := r.slots[i := f]), m, true)
  {
    hide Pump, Stray, Placed;
  }

  lemma Previous(q: nat)
    requires q > 0
    ensures (q % MAXFRAGNUM - 1) % MAXFRAGNUM == (q - 1) % MAXFRAGNUM && (q % WORD - 1) % WORD == (q - 1) % WORD
  {
    AddToWord(q, -1);
    assert q - 1 == q % MAXFRAGNUM - 1 + MAXFRAGNUM * (q / MAXFRAGNUM);
    WholeTurns(q % MAXFRAGNUM - 1, q / MAXFRAGNUM);
  }

  /** In the slot for `q` there is no other fragment, unless `q` is just out of reach. */
  lemma Neighbour(r: Ring, b: nat, s: seq<Slot>, got: set<nat>, q: nat)
    requires Stream(s) && Window(r, b, s, got) && b <= q <= b + MAXFRAGNUM
    ensures Shape(r)
    ensures if q < b + MAXFRAGNUM then !Stray(r, q % MAXFRAGNUM, q % WORD) else q % MAXFRAGNUM == r.index
  {
    hide Window, Stream;
    WindowShape(r, b, s, got);
    SlotOf(r, b, s, got, q);
    if q == b + MAXFRAGNUM { WholeTurns(b, 1); }
  }

  // ---- the links ----

  /** Every fragment is sent on a member link. */
  ghost predicate Routed(s: seq<Slot>, link: seq<nat>, members: seq<nat>) {
    |link| == |s| && members != [] && forall q :: 0 <= q < |s| ==> link[q] in members
  }

  /** What came over a link came in order and without gaps. */
  ghost predicate InOrder(link: seq<nat>, got: set<nat>) {
    && (forall q :: q in got ==> q < |link|)
    && (forall x, q :: q in got && 0 <= x < q && link[x] == link[q] ==> x in got)
  }

  predicate Members(members: seq<nat>, n: nat) {
    members != [] && forall k :: 0 <= k < |members| ==> members[k] < n
  }

  /** The last numbers, without bound, are those of the latest fragments on each link, or 0 before there is any. */
  ghost predicate Latest(top: seq<nat>, members: seq<nat>, link: seq<nat>, got: set<nat>) {
    && Members(members, |top|)
    && (forall q :: q in got ==> q < |link| && link[q] < |top| && q <= top[link[q]])
    && (forall k :: 0 <= k < |members| && top[members[k]] > 0 ==>
          top[members[k]] in got && top[members[k]] < |link| && link[top[members[k]]] == members[k])
  }

  /** The code keeps their words. */
  ghost predicate Words(last: seq<U32>, top: seq<nat>, members: seq<nat>)
    requires Members(members, |top|)
  {
    |last| == |top| && forall k :: 0 <= k < |members| ==> last[members[k]] == top[members[k]] % WORD
  }

  /** No number is far ahead of any link. */
  ghost predicate Near(top: seq<nat>, members: seq<nat>, got: set<nat>)
    requires Members(members, |top|)
  {
    forall q, k :: q in got && 0 <= k < |members| ==> q < top[members[k]] + MAX_SEQ / 2
  }

  /** How words order numbers that are near one another: a later round of 2^32 counts as smaller. */
  predicate Before(x: nat, y: nat) { x / WORD > y / WORD || (x / WORD == y / WORD && x < y) }

  /** M without bound: the smallest last number in the latest round. */
  function Lead(top: seq<nat>, members: seq<nat>): (m: nat)
    requires Members(members, |top|)
    ensures exists k :: 0 <= k < |members| && top[members[k]] == m
    ensures forall k :: 0 <= k < |members| ==> !Before(top[members[k]], m)
    decreases |members|
  {
    var n := |members| - 1;
    if n == 0 then top[members[0]]
    else
      var m, x := Lead(top, members[..n]), top[members[n]];
      assert m == m && exists k :: 0 <= k < n && top[members[..n][k]] == m;
      assert forall k :: 0 <= k < n ==> members[..n][k] == members[k];
      if Before(x, m) then x else m
  }

  lemma Rounds(x: nat, y: nat)
    ensures x / WORD < y / WORD ==> y - x >= WORD + y % WORD - x % WORD
    ensures x / WORD == y / WORD ==> y % WORD - x % WORD == y - x
  {
    if x / WORD < y / WORD { RoundsApart(x, y); }
    if x / WORD == y / WORD { SameRound(x, y); }
  }

  lemma LeadIs(top: seq<nat>, members: seq<nat>, m: nat)
    requires Members(members, |top|) && (exists k :: 0 <= k < |members| && top[members[k]] == m)
    requires forall k :: 0 <= k < |members| ==> !Before(top[members[k]], m)
    ensures Lead(top, members) == m
  {
    hide Lead;
    var x := Lead(top, members);
    var k :| 0 <= k < |members| && top[members[k]] == m;
    assert !Before(m, x);
    var j :| 0 <= j < |members| && top[members[j]] == x;
    assert !Before(x, m);
  }

  /** The minimum the code takes over the words is the word of it. */
  lemma MinLastIsLead(last: seq<U32>, top: seq<nat>, members: seq<nat>)
    requires Members(members, |top|) && Words(last, top, members) && Linked(members, last)
    requires forall k :: 0 <= k < |members| ==> Lead(top, members) < top[members[k]] + MAX_SEQ / 2
    ensures MinLast(last, members) == Lead(top, members) % WORD
  {
    hide MinLast, Lead;
    var m, x := Lead(top, members), MinLast(last, members);
    var k :| 0 <= k < |members| && top[members[k]] == m;
    assert x <= last[members[k]];
    var j :| 0 <= j < |members| && last[members[j]] == x;
    var y := top[members[j]];
    assert !Before(y, m) && m < y + MAX_SEQ / 2;
    Rounds(y, m);
  }

  /** M as the code keeps it: the smaller of the new number and the minimum over the links. */
  lemma NewMIsLead(m: U32, last: seq<U32>, top: seq<nat>, members: seq<nat>, l: nat, q: nat)
    requires Members(members, |top|) && Words(last, top, members) && Linked(members, last)
    requires m == Lead(top, members) % WORD && l in members && top[l] <= q && Lead(top, members) < q + MAX_SEQ / 2
    requires var top' := top[l := q];
             forall k :: 0 <= k < |members| ==> Lead(top', members) < top'[members[k]] + MAX_SEQ / 2
    ensures Linked(members, last[l := q % WORD]) && Words(last[l := q % WORD], top[l := q], members)
    ensures NewM(m, q % WORD, last[l := q % WORD], members) == Lead(top[l := q], members) % WORD
  {
    hide MinLast, Lead;
    var last', top', x := last[l := q % WORD], top[l := q], Lead(top, members);
    MinLastIsLead(last', top', members);
    if q % WORD < m {
      Rounds(q, x);
      assert Before(q, x);
      var k :| 0 <= k < |members| && members[k] == l;
      assert top'[members[k]] == q;
      forall j | 0 <= j < |members|
        ensures !Before(top'[members[j]], q)
      {
        assert !Before(top[members[j]], x);
      }
      LeadIs(top', members, q);
    }
  }

  /** What M and the last numbers say, wherever the start is. */
  ghost predicate Abreast(b: Bundle, top: seq<nat>, members: seq<nat>, link: seq<nat>, got: set<nat>) {
    && InOrder(link, got) && Latest(top, members, link, got) && Near(top, members, got)
    && Linked(members, b.last) && Words(b.last, top, members) && b.m == Lead(top, members) % WORD
  }

  /** What holds between two arrivals. */
  ghost predicate Inv(b: Bundle, top: seq<nat>, members: seq<nat>, s: seq<Slot>, link: seq<nat>, got: set<nat>) {
    Window(b.ring, Bound(s, got, 0), s, got) && Abreast(b, top, members, link, got)
  }

  /** Nothing is lost on the way: everything before on the same link has come. The fragment is less than 512
      past the first incomplete frame and less than 2^23 past what has come on any link. */
  ghost predicate Arrives(top: seq<nat>, members: seq<nat>, s: seq<Slot>, link: seq<nat>, got: set<nat>, q: nat) {
    && Members(members, |top|)
    && q < |s| == |link| && q !in got && (forall x :: 0 <= x < q && link[x] == link[q] ==> x in got)
    && q < Bound(s, got, 0) + MAXFRAGNUM
    && forall k :: 0 <= k < |members| ==> q < top[members[k]] + MAX_SEQ / 2
  }

  /** M passes nothing that is missing, and is not the largest word in the middle of a frame. */
  ghost predicate Calm(s: seq<Slot>, got: set<nat>, lead: nat) {
    !Stranded(s, lead) && !Overtaken(s, got, Bound(s, got, 0), lead)
  }

  lemma LatestNext(top: seq<nat>, members: seq<nat>, s: seq<Slot>, link: seq<nat>, got: set<nat>, q: nat)
    requires Routed(s, link, members) && Latest(top, members, link, got) && InOrder(link, got)
    requires Near(top, members, got)
    requires Arrives(top, members, s, link, got, q)
    ensures link[q] in members && link[q] < |top| && top[link[q]] <= q && InOrder(link, got + {q})
    ensures var top' := top[link[q] := q]; Latest(top', members, link, got + {q}) && Near(top', members, got + {q})
  {
    hide Stream, Bound;
    var k :| 0 <= k < |members| && members[k] == link[q];
    assert top[members[k]] <= q;
  }

  /** M belongs to a fragment that has come, nothing that has come is in a later round, and no link is far
      behind it. */
  lemma LeadNewest(top: seq<nat>, members: seq<nat>, s: seq<Slot>, link: seq<nat>, got: set<nat>)
    requires Routed(s, link, members) && Latest(top, members, link, got) && Near(top, members, got)
    requires forall q :: q in got ==> q < |s|
    ensures Newest(got, Lead(top, members))
    ensures forall k :: 0 <= k < |members| ==> Lead(top, members) < top[members[k]] + MAX_SEQ / 2
  {
    hide Lead;
    var m := Lead(top, members);
    forall q | q in got
      ensures q / WORD <= m / WORD
    {
      var k :| 0 <= k < |members| && members[k] == link[q];
      NotEarlier(q, top[members[k]]);
      assert !Before(top[members[k]], m);
    }
  }

  /** A number that is not far from M survives being cut to 24 bits. */
  lemma ExpandIs(lead: nat, q: nat)
    requires lead - MAX_SEQ / 2 < q < lead + MAX_SEQ / 2
    ensures Expand(lead % WORD, q % MAX_SEQ) == q % WORD
  {
    hide Signed;
    var m := lead % WORD;
    var x := m - m % MAX_SEQ + q % MAX_SEQ;
    LowOfWord(lead);
    var d := q - lead;
    assert lead == MAX_SEQ * (lead / MAX_SEQ) + lead % MAX_SEQ && q == MAX_SEQ * (q / MAX_SEQ) + q % MAX_SEQ;
    SmallSigned(m - x);
    SmallSigned(x - m);
    AddToWord(lead, d);
    if q / MAX_SEQ == lead / MAX_SEQ {
      assert x == m + d;
      SameBlock(m, x);
    } else if q / MAX_SEQ > lead / MAX_SEQ {
      assert q / MAX_SEQ == lead / MAX_SEQ + 1;
      assert x == m + d - MAX_SEQ;
    } else {
      assert q / MAX_SEQ == lead / MAX_SEQ - 1;
      assert x == m + d + MAX_SEQ;
    }
  }

  lemma LowOfWord(x: nat)
    ensures x % WORD % MAX_SEQ == x % MAX_SEQ
  {
    var k := x / WORD;
    assert x == x % WORD + MAX_SEQ * (0x100 * k);
    Turns(x % WORD, 0x100 * k);
  }

  lemma Turns(x: nat, k: nat)
    ensures (x + MAX_SEQ * k) % MAX_SEQ == x % MAX_SEQ
  {
  }

  lemma SmallSigned(x: int)
    requires -MAX_SEQ <= x <= MAX_SEQ
    ensures Signed(x) == x
  {
  }

  lemma AddToWord(x: nat, d: int)
    requires x + d >= 0
    ensures (x % WORD + d) % WORD == (x + d) % WORD
  {
    var k := x / WORD;
    assert x + d == x % WORD + d + WORD * k;
    WholeWords(x % WORD + d, k);
  }

  lemma WholeWords(x: int, k: nat)
    ensures (x + WORD * k) % WORD == x % WORD
  {
  }

  /** Numbers that differ below 2^24 only are words alike. */
  lemma SameBlock(m: U32, x: int)
    requires m - m % MAX_SEQ <= x < m - m % MAX_SEQ + MAX_SEQ
    ensures x % WORD == x
  {
    assert m == MAX_SEQ * (m / MAX_SEQ) + m % MAX_SEQ;
    assert m / MAX_SEQ <= 0xFF;
  }

  lemma SignedIs(x: nat, y: nat)
    requires -0x8000_0000 <= x - y < 0x8000_0000
    ensures Signed(x % WORD - y % WORD) == x - y
  {
    var j, k := x / WORD, y / WORD;
    assert x == WORD * j + x % WORD && y == WORD * k + y % WORD;
    assert x - y == x % WORD - y % WORD + WORD * (j - k);
  }

  lemma WindowPlaces(r: Ring, b: nat, s: seq<Slot>, got: set<nat>, q: nat, lead: nat)
    requires Stream(s) && Window(r, b, s, got) && b <= q < b + MAXFRAGNUM && q < |s|
    requires lead < b + MAXFRAGNUM && b <= lead + MAX_SEQ
    ensures Skip(r, lead % WORD) == r && Place(r, q % WORD) == Some(q % MAXFRAGNUM)
  {
    hide Stream, Signed, Placed, Window;
    WindowCongruent(r, b, s, got);
    WindowShape(r, b, s, got);
    SignedIs(lead, b);
    SignedIs(q, b);
    PlaceIs(r, q % WORD);
    WordIndex(q);
  }

  // ---- one step ----

  lemma BoundIs(s: seq<Slot>, got: set<nat>, b: nat)
    ensures !Complete(s, got, Bound(s, got, b))
    decreases |s| - b
  {
    hide LastOf;
    if Complete(s, got, b) { BoundIs(s, got, LastOf(s, b).value + 1); }
  }

  /** As long as all links are in one round, M overtakes nothing that is missing. */
  lemma TogetherIsCalm(top: seq<nat>, members: seq<nat>, s: seq<Slot>, link: seq<nat>, got: set<nat>)
    requires Stream(s) && Routed(s, link, members) && Latest(top, members, link, got) && InOrder(link, got)
    requires forall k :: 0 <= k < |members| ==> top[members[k]] / WORD >= Lead(top, members) / WORD
    ensures !Overtaken(s, got, Bound(s, got, 0), Lead(top, members))
  {
    hide Lead, Stream, Bound, Complete, Begins, Ends;
    var lead, c := Lead(top, members), Bound(s, got, 0);
    BoundIs(s, got, 0);
    forall x | x in got && c < x < lead && x < |s|
      ensures !Begins(s[x])
    {
      BelowLead(top, members, s, link, got, x);
      FramePassed(s, got, c, x);
    }
  }

  /** Everything below x has come, if all links are past it. */
  lemma BelowLead(top: seq<nat>, members: seq<nat>, s: seq<Slot>, link: seq<nat>, got: set<nat>, x: nat)
    requires Routed(s, link, members) && Latest(top, members, link, got) && InOrder(link, got) && x <= |s|
    requires x <= Lead(top, members)
    requires forall k :: 0 <= k < |members| ==> top[members[k]] / WORD >= Lead(top, members) / WORD
    ensures forall z :: 0 <= z < x ==> z in got
  {
    hide Lead;
    forall z | 0 <= z < x
      ensures z in got
    {
      var k :| 0 <= k < |members| && members[k] == link[z];
      assert !Before(top[members[k]], Lead(top, members));
      assert z <= top[members[k]];
    }
  }

  lemma FramePassed(s: seq<Slot>, got: set<nat>, c: nat, x: nat)
    requires Stream(s) && c < x < |s| && (forall z :: 0 <= z < x ==> z in got) && !Complete(s, got, c)
    ensures !Begins(s[x])
  {
    hide Stream, Complete, Begins, Ends, Gap;
    GapMeans(s, got, c, x);
    if Gap(s, got, c, x) == x { GapBelow(s, got, c, x, x - 1); }
    BeginsAt(s, x);
    assert x - 1 in got;
  }

  /** So an overtaking means that a link has not wrapped yet, and the words are small. */
  lemma OvertakenIsSmall(top: seq<nat>, members: seq<nat>, s: seq<Slot>, link: seq<nat>, got: set<nat>)
    requires Stream(s) && Routed(s, link, members) && Latest(top, members, link, got) && InOrder(link, got)
    requires Near(top, members, got) && forall q :: q in got ==> q < |s|
    ensures var c := Bound(s, got, 0); Overtaken(s, got, c, Lead(top, members)) ==> c % WORD < MAX_SEQ
  {
    hide Lead, Stream, Bound, Begins;
    var lead, c := Lead(top, members), Bound(s, got, 0);
    if Overtaken(s, got, c, lead) {
      if forall k :: 0 <= k < |members| ==> top[members[k]] / WORD >= lead / WORD {
        TogetherIsCalm(top, members, s, link, got);
        assert false;
      } else {
        var k :| 0 <= k < |members| && top[members[k]] / WORD < lead / WORD;
        LeadNewest(top, members, s, link, got);
        Rounds(top[members[k]], lead);
        SameRound(c, lead);
      }
    }
  }

  /** M is the largest word only when a single link carries everything, and that number has just come. */
  lemma StrandedIsAlone(top: seq<nat>, members: seq<nat>, s: seq<Slot>, link: seq<nat>, got: set<nat>, k: nat)
    requires Routed(s, link, members) && Latest(top, members, link, got) && InOrder(link, got)
    requires Near(top, members, got)
    requires (forall q :: q in got ==> q < |s|) && k < |members| && Lead(top, members) % WORD == WORD - 1
    ensures top[members[k]] == Lead(top, members)
    ensures forall x :: 0 <= x <= Lead(top, members) ==> x in got
    ensures forall j :: 0 <= j < |members| ==> members[j] == members[k]
  {
    hide Lead;
    var lead := Lead(top, members);
    LeadNewest(top, members, s, link, got);
    forall j | 0 <= j < |members|
      ensures top[members[j]] == lead && members[j] == link[lead]
    {
      var x := top[members[j]];
      assert !Before(x, lead);
      Rounds(x, lead);
      assert x > 0;
    }
    assert lead in got;
    forall x | 0 <= x <= lead
      ensures x in got
    {
      var j :| 0 <= j < |members| && members[j] == link[x];
      assert link[x] == link[lead];
    }
  }

  lemma {:induction false} FramesGrow(s: seq<Slot>, got: set<nat>, got': set<nat>, b: nat)
    requires got <= got'
    ensures Bound(s, got', b) == Bound(s, got', Bound(s, got, b))
    ensures Frames(s, got', b) == Frames(s, got, b) + Frames(s, got', Bound(s, got, b))
    decreases |s| - b
  {
    hide LastOf, Whole;
    if Complete(s, got, b) {
      FramesGrow(s, got, got', LastOf(s, b).value + 1);
    }
  }

  lemma AllInStream(r: Ring, b: nat, s: seq<Slot>, got: set<nat>)
    requires Window(r, b, s, got)
    ensures forall q :: q in got ==> q < |s|
  {
  }

  lemma LeadReach(r: Ring, b: nat, s: seq<Slot>, got: set<nat>, lead: nat)
    requires Window(r, b, s, got) && Newest(got, lead)
    ensures lead < b + MAXFRAGNUM
  {
  }

  lemma NearLead(top: seq<nat>, members: seq<nat>, l: nat, q: nat)
    requires Members(members, |top|) && l in members && top[l] <= q
    requires forall k :: 0 <= k < |members| ==> q < top[members[k]] + MAX_SEQ / 2
    requires forall k :: 0 <= k < |members| ==> Lead(top, members) < top[members[k]] + MAX_SEQ / 2
    ensures Lead(top, members) < q + MAX_SEQ / 2 && q < Lead(top, members) + MAX_SEQ / 2
  {
    hide Lead;
    var k :| 0 <= k < |members| && members[k] == l;
    var j :| 0 <= j < |members| && top[members[j]] == Lead(top, members);
  }

  lemma StartNear(r: Ring, b: nat, s: seq<Slot>, got: set<nat>, top: seq<nat>, members: seq<nat>)
    requires Window(r, b, s, got) && Members(members, |top|) && Near(top, members, got)
    ensures b <= Lead(top, members) + MAX_SEQ
  {
    hide Lead;
    var j :| 0 <= j < |members| && top[members[j]] == Lead(top, members);
    if b > 0 { assert b - 1 in got; }
  }

  lemma FragmentIs(s: seq<Slot>, q: nat)
    requires Stream(s) && q < |s|
    ensures 4 + |s[q].data| <= MAXFRAGLEN && Slot(s[q].data, s[q].flags, q % WORD) == s[q]
  {
  }

  lemma AbreastInStream(b: Bundle, top: seq<nat>, members: seq<nat>, s: seq<Slot>, link: seq<nat>, got: set<nat>)
    requires Abreast(b, top, members, link, got) && Routed(s, link, members)
    ensures forall q :: q in got ==> q < |s|
  {
    hide Latest, Near, Linked, Words, Lead;
  }

  /** Every arrival brings M and the last numbers up to date, and goes on to its place in the ring. */
  lemma ReceiveSettles(b: Bundle, top: seq<nat>, members: seq<nat>, s: seq<Slot>, link: seq<nat>, got: set<nat>, q: nat)
    requires Stream(s) && Routed(s, link, members) && Abreast(b, top, members, link, got) && Congruent(b.ring)
    requires Arrives(top, members, s, link, got, q)
    ensures link[q] in members && link[q] < |top| && Members(members, |top|)
    ensures var top' := top[link[q] := q]; var lead := Lead(top', members);
            && Newest(got + {q}, lead)
            && (var p := Settled(b.ring, s[q], lead % WORD);
                var r := Receive(b, members, link[q], s[q].flags, q % MAX_SEQ, s[q].data);
                && r.frames == p.frames && r.bundle.ring == p.ring && r.bundle.m == lead % WORD
                && r.bundle.last == b.last[link[q] := q % WORD] && Abreast(r.bundle, top', members, link, got + {q}))
  {
    hide Latest, Near, InOrder, Settled, Expand, MinLast, Bound, Stream, NewM, Lead, Placed, Words;
    var l := link[q];
    AbreastInStream(b, top, members, s, link, got);
    LatestNext(top, members, s, link, got, q);
    var top' := top[l := q];
    LeadNewest(top, members, s, link, got);
    LeadNewest(top', members, s, link, got + {q});
    NearLead(top, members, l, q);
    NewMIsLead(b.m, b.last, top, members, l, q);
    ExpandIs(Lead(top, members), q);
    FragmentIs(s, q);
  }

  /** What the receiver does with a fragment that arrives in step: it goes to its slot, and both labels run. */
  lemma ReceiveIs(b: Bundle, top: seq<nat>, members: seq<nat>, s: seq<Slot>, link: seq<nat>, got: set<nat>, q: nat)
    requires Stream(s) && Routed(s, link, members) && Inv(b, top, members, s, link, got)
    requires Arrives(top, members, s, link, got, q)
    ensures Congruent(b.ring) && link[q] in members && Linked(members, b.last) && link[q] < |top|
    ensures var l, c := link[q], Bound(s, got, 0);
            var top', r0 := top[l := q], b.ring.(slots := b.ring.slots[q % MAXFRAGNUM := s[q]]);
            var lead := Lead(top', members);
            && Newest(got + {q}, lead) && lead < c + MAXFRAGNUM && c <= q
            && Window(r0, c, s, got + {q}) && Congruent(r0)
            && (var p := Pump(r0, lead % WORD, true);
                var r := Receive(b, members, l, s[q].flags, q % MAX_SEQ, s[q].data);
                && r.frames == p.frames && r.bundle.ring == p.ring && r.bundle.m == lead % WORD
                && r.bundle.last == b.last[l := q % WORD] && Abreast(r.bundle, top', members, link, got + {q}))
  {
    hide Window, Latest, Near, InOrder, Insert, Pump, Skip, Place, Bound, Stream, Lead, Placed, Words, Receive;
    var c := Bound(s, got, 0);
    WindowCongruent(b.ring, c, s, got);
    ReceiveSettles(b, top, members, s, link, got, q);
    InsertedWindow(b.ring, c, s, got, q);
    var top', r0 := top[link[q] := q], b.ring.(slots := b.ring.slots[q % MAXFRAGNUM := s[q]]);
    var lead := Lead(top', members);
    LeadReach(r0, c, s, got + {q}, lead);
    StartNear(r0, c, s, got + {q}, top', members);
    WindowPlaces(b.ring, c, s, got, q, lead);
    InsertWindow(b.ring, c, s, got, q, lead % WORD);
    NumIs(s, q);
  }

  ghost predicate Ready(b: Bundle, members: seq<nat>) { Congruent(b.ring) && Linked(members, b.last) }

  /** What the receiver does with fragment `q`. */
  function Take(b: Bundle, members: seq<nat>, s: seq<Slot>, link: seq<nat>, q: nat): (r: Received)
    requires Ready(b, members) && Routed(s, link, members) && q < |s|
    ensures Ready(r.bundle, members)
  {
    Receive(b, members, link[q], s[q].flags, q % MAX_SEQ, s[q].data)
  }

  /** One arrival, exactly: everything stays in step if and only if M passes nothing that is missing and is not
      the largest word in the middle of a frame; and then the frames the fragment completes leave, in order. */
  lemma ReceiveIff(b: Bundle, top: seq<nat>, members: seq<nat>, s: seq<Slot>, link: seq<nat>, got: set<nat>, q: nat)
    requires Stream(s) && Routed(s, link, members) && Inv(b, top, members, s, link, got)
    requires Arrives(top, members, s, link, got, q)
    ensures Ready(b, members) && q < |s| && link[q] < |top|
    ensures var r, top' := Take(b, members, s, link, q), top[link[q] := q];
            && Members(members, |top'|)
            && (Inv(r.bundle, top', members, s, link, got + {q}) <==> Calm(s, got + {q}, Lead(top', members)))
            && (Calm(s, got + {q}, Lead(top', members)) ==>
                  Frames(s, got + {q}, 0) == Frames(s, got, 0) + r.frames)
  {
    hide Window, Latest, Near, InOrder, Receive, Pump, Bound, Stream, Lead, Placed, Words, Stranded, Overtaken,
         Frames, Newest;
    ReceiveIs(b, top, members, s, link, got, q);
    var l, c, got' := link[q], Bound(s, got, 0), got + {q};
    var top', r0 := top[l := q], b.ring.(slots := b.ring.slots[q % MAXFRAGNUM := s[q]]);
    var lead := Lead(top', members);
    FramesGrow(s, got, got', 0);
    if Calm(s, got', lead) {
      PumpWindow(r0, c, s, got', lead, true);
    } else if Stranded(s, lead) {
      StrandedBehind(r0, c, top', members, s, link, got', lead, q);
      PumpStranded(r0, c, s, got', lead);
    } else {
      AllInStream(r0, c, s, got');
      OvertakenIsSmall(top', members, s, link, got');
      var z, t := PumpAstray(r0, c, s, got', lead, true);
      PastIsAway(Pump(r0, lead % WORD, true).ring, Bound(s, got', c), z, t, s, got');
    }
  }

  /** When M is the largest word in the middle of a frame, all up to it has come, and the start is behind it. */
  lemma StrandedBehind(r: Ring, b: nat, top: seq<nat>, members: seq<nat>, s: seq<Slot>, link: seq<nat>, got: set<nat>,
                       lead: nat, q: nat)
    requires Routed(s, link, members) && Latest(top, members, link, got) && InOrder(link, got)
    requires Near(top, members, got) && Window(r, b, s, got) && lead == Lead(top, members) && Stranded(s, lead)
    requires q in got && b <= q < |link| && link[q] < |top| && top[link[q]] == q && lead < b + MAXFRAGNUM
    ensures b < lead && b / WORD == lead / WORD && lead % WORD == WORD - 1 && forall x :: 0 <= x <= lead ==> x in got
  {
    hide Window, Latest, Near, InOrder, Lead;
    WindowShape(r, b, s, got);
    AllInStream(r, b, s, got);
    var k := MemberOf(s, link, members, q);
    StrandedIsAlone(top, members, s, link, got, k);
    assert q == lead;
    StartBegins(s, b);
    assert b < lead;
    Rounds(b, lead);
  }

  lemma MemberOf(s: seq<Slot>, link: seq<nat>, members: seq<nat>, q: nat) returns (k: nat)
    requires Routed(s, link, members) && q < |link|
    ensures k < |members| && members[k] == link[q]
  {
    k :| 0 <= k < |members| && members[k] == link[q];
  }

  // ---- runs ----

  /** Nothing has come yet. */
  ghost predicate Start(b: Bundle, members: seq<nat>) {
    && b.m == 0 && Linked(members, b.last) && (forall k :: 0 <= k < |members| ==> b.last[members[k]] == 0)
    && b.ring == Ring(seq(MAXFRAGNUM, _ => Slot([], 0, 0)), 0, 0)
  }

  function Zero(n: nat): seq<nat> { seq(n, _ => 0) }

  lemma StartInv(b: Bundle, members: seq<nat>, s: seq<Slot>, link: seq<nat>)
    requires Start(b, members) && Stream(s) && Routed(s, link, members)
    ensures Ready(b, members) && Inv(b, Zero(|b.last|), members, s, link, {}) && Frames(s, {}, 0) == []
  {
    var top := Zero(|b.last|);
    assert Members(members, |top|);
    LeadIs(top, members, top[members[0]]);
    CompleteNext(s, {}, 0);
  }

  /** The fragments `qs` arrive one after the other, each as the state of the links then allows. */
  ghost predicate Arriving(top: seq<nat>, members: seq<nat>, s: seq<Slot>, link: seq<nat>, got: set<nat>, qs: seq<nat>)
    decreases |qs|
  {
    qs == [] || (
      && Arrives(top, members, s, link, got, qs[0]) && link[qs[0]] < |top|
      && Arriving(top[link[qs[0]] := qs[0]], members, s, link, got + {qs[0]}, qs[1..]))
  }

  /** At every arrival M passes nothing that is missing. */
  ghost predicate CalmRun(top: seq<nat>, members: seq<nat>, s: seq<Slot>, link: seq<nat>, got: set<nat>, qs: seq<nat>)
    requires Arriving(top, members, s, link, got, qs)
    decreases |qs|
  {
    qs == [] || (
      var top', got' := top[link[qs[0]] := qs[0]], got + {qs[0]};
      Calm(s, got', Lead(top', members)) && CalmRun(top', members, s, link, got', qs[1..]))
  }

  predicate Inside(qs: seq<nat>, s: seq<Slot>) { forall i :: 0 <= i < |qs| ==> qs[i] < |s| }

  function After(b: Bundle, members: seq<nat>, s: seq<Slot>, link: seq<nat>, qs: seq<nat>): Received
    requires Ready(b, members) && Routed(s, link, members) && Inside(qs, s)
    ensures Ready(After(b, members, s, link, qs).bundle, members)
    decreases |qs|
  {
    if qs == [] then Received(b, [])
    else
      var r := Take(b, members, s, link, qs[0]);
      var rest := After(r.bundle, members, s, link, qs[1..]);
      Received(rest.bundle, r.frames + rest.frames)
  }

  /** The receiver is in step after every arrival. */
  ghost predicate InStep(b: Bundle, top: seq<nat>, members: seq<nat>, s: seq<Slot>, link: seq<nat>, got: set<nat>,
      qs: seq<nat>)
    requires Ready(b, members) && Routed(s, link, members) && Arriving(top, members, s, link, got, qs)
    decreases |qs|
  {
    qs == [] || (
      var r := Take(b, members, s, link, qs[0]);
      var top', got' := top[link[qs[0]] := qs[0]], got + {qs[0]};
      Inv(r.bundle, top', members, s, link, got') && InStep(r.bundle, top', members, s, link, got', qs[1..]))
  }

  lemma ArrivingOn(top: seq<nat>, members: seq<nat>, s: seq<Slot>, link: seq<nat>, got: set<nat>, qs: seq<nat>)
    requires Arriving(top, members, s, link, got, qs) && qs != []
    ensures Arrives(top, members, s, link, got, qs[0]) && qs[0] < |s| == |link| && link[qs[0]] < |top|
    ensures Members(members, |top|)
    ensures Arriving(top[link[qs[0]] := qs[0]], members, s, link, got + {qs[0]}, qs[1..])
  {
  }

  lemma CalmOn(top: seq<nat>, members: seq<nat>, s: seq<Slot>, link: seq<nat>, got: set<nat>, qs: seq<nat>)
    requires Arriving(top, members, s, link, got, qs) && qs != []
    ensures qs[0] < |s| == |link| && link[qs[0]] < |top| && Members(members, |top|)
    ensures var top', got' := top[link[qs[0]] := qs[0]], got + {qs[0]};
            && Arriving(top', members, s, link, got', qs[1..])
            && (CalmRun(top, members, s, link, got, qs) <==>
                  Calm(s, got', Lead(top', members)) && CalmRun(top', members, s, link, got', qs[1..]))
  {
    hide Arrives, Calm, Lead;
    ArrivesHere(top, members, s, link, got, qs[0]);
  }

  lemma ArrivesHere(top: seq<nat>, members: seq<nat>, s: seq<Slot>, link: seq<nat>, got: set<nat>, q: nat)
    requires Arrives(top, members, s, link, got, q)
    ensures q < |s| == |link| && Members(members, |top|)
  {
  }

  lemma AfterOn(b: Bundle, members: seq<nat>, s: seq<Slot>, link: seq<nat>, qs: seq<nat>)
    requires Ready(b, members) && Routed(s, link, members) && Inside(qs, s) && qs != []
    ensures qs[0] < |s| && Inside(qs[1..], s)
    ensures var r := Take(b, members, s, link, qs[0]);
            var rest := After(r.bundle, members, s, link, qs[1..]);
            After(b, members, s, link, qs) == Received(rest.bundle, r.frames + rest.frames)
  {
    hide Ready, Routed, Take;
  }

  lemma InvReady(b: Bundle, top: seq<nat>, members: seq<nat>, s: seq<Slot>, link: seq<nat>, got: set<nat>)
    requires Stream(s) && Inv(b, top, members, s, link, got)
    ensures Ready(b, members)
  {
    hide Window, Placed, Stream;
    WindowCongruent(b.ring, Bound(s, got, 0), s, got);
  }

  lemma {:induction false} ArrivingInside(top: seq<nat>, members: seq<nat>, s: seq<Slot>, link: seq<nat>,
      got: set<nat>, qs: seq<nat>)
    requires Arriving(top, members, s, link, got, qs)
    ensures Inside(qs, s)
    decreases |qs|
  {
    if qs != [] {
      ArrivingInside(top[link[qs[0]] := qs[0]], members, s, link, got + {qs[0]}, qs[1..]);
      assert forall i :: 0 < i < |qs| ==> qs[i] == qs[1..][i - 1];
    }
  }

  /** The exact condition over whole runs: the receiver stays in step if and only if at no arrival M passes
      something that is missing. */
  lemma {:induction false} InStepIff(b: Bundle, top: seq<nat>, members: seq<nat>, s: seq<Slot>, link: seq<nat>,
      got: set<nat>, qs: seq<nat>)
    requires Stream(s) && Routed(s, link, members) && Inv(b, top, members, s, link, got)
    requires Arriving(top, members, s, link, got, qs)
    ensures Ready(b, members)
    ensures InStep(b, top, members, s, link, got, qs) <==> CalmRun(top, members, s, link, got, qs)
    decreases |qs|
  {
    hide Inv, Frames, Take, Calm, Ready, Stream, Lead;
    InvReady(b, top, members, s, link, got);
    if qs != [] {
      ReceiveIff(b, top, members, s, link, got, qs[0]);
      var r := Take(b, members, s, link, qs[0]);
      var top', got' := top[link[qs[0]] := qs[0]], got + {qs[0]};
      if Calm(s, got', Lead(top', members)) { InStepIff(r.bundle, top', members, s, link, got', qs[1..]); }
    }
  }

  function Elems(qs: seq<nat>): set<nat> { set q | q in qs }

  /** The last numbers after a run. */
  function TopAfter(top: seq<nat>, link: seq<nat>, qs: seq<nat>): seq<nat>
    decreases |qs|
  {
    if qs == [] then top
    else if qs[0] < |link| && link[qs[0]] < |top| then TopAfter(top[link[qs[0]] := qs[0]], link, qs[1..])
    else TopAfter(top, link, qs[1..])
  }

  /** In step, what has been delivered are the frames that were completed. */
  lemma {:induction false} RunDelivers(b: Bundle, top: seq<nat>, members: seq<nat>, s: seq<Slot>, link: seq<nat>,
      got: set<nat>, qs: seq<nat>)
    requires Stream(s) && Routed(s, link, members) && Inv(b, top, members, s, link, got)
    requires Arriving(top, members, s, link, got, qs)
    requires CalmRun(top, members, s, link, got, qs)
    ensures Ready(b, members) && Inside(qs, s)
    ensures Frames(s, got + Elems(qs), 0) == Frames(s, got, 0) + After(b, members, s, link, qs).frames
    decreases |qs|
  {
    hide Inv, Frames, Take, Calm, Ready, Stream, Lead, Arriving, CalmRun, After, Arrives, Routed;
    InvReady(b, top, members, s, link, got);
    ArrivingInside(top, members, s, link, got, qs);
    if qs == [] {
      assert got + Elems(qs) == got;
      assert After(b, members, s, link, qs) == Received(b, []) by { AfterNone(b, members, s, link, qs); }
    } else {
      var q := qs[0];
      ArrivingOn(top, members, s, link, got, qs);
      CalmOn(top, members, s, link, got, qs);
      AfterOn(b, members, s, link, qs);
      ReceiveIff(b, top, members, s, link, got, q);
      RunDelivers(Take(b, members, s, link, q).bundle, top[link[q] := q], members, s, link, got + {q}, qs[1..]);
      ElemsOn(got, qs);
    }
  }

  lemma AfterNone(b: Bundle, members: seq<nat>, s: seq<Slot>, link: seq<nat>, qs: seq<nat>)
    requires Ready(b, members) && Routed(s, link, members) && Inside(qs, s) && qs == []
    ensures After(b, members, s, link, qs) == Received(b, [])
  {
  }

  lemma ElemsOn(got: set<nat>, qs: seq<nat>)
    requires qs != []
    ensures got + {qs[0]} + Elems(qs[1..]) == got + Elems(qs)
  {
    assert qs == [qs[0]] + qs[1..];
  }

  /** And everything is still in step at the end. */
  lemma {:induction false} RunKeepsInv(b: Bundle, top: seq<nat>, members: seq<nat>, s: seq<Slot>, link: seq<nat>,
      got: set<nat>, qs: seq<nat>)
    requires Stream(s) && Routed(s, link, members) && Inv(b, top, members, s, link, got)
    requires Arriving(top, members, s, link, got, qs)
    requires CalmRun(top, members, s, link, got, qs)
    ensures Ready(b, members) && Inside(qs, s)
    ensures Inv(After(b, members, s, link, qs).bundle, TopAfter(top, link, qs), members, s, link, got + Elems(qs))
    decreases |qs|
  {
    hide Inv, Take, Calm, Ready, Stream, Lead, Arriving, CalmRun, After, Arrives, Routed;
    InvReady(b, top, members, s, link, got);
    ArrivingInside(top, members, s, link, got, qs);
    if qs == [] {
      assert got + Elems(qs) == got;
      assert After(b, members, s, link, qs) == Received(b, []) by { AfterNone(b, members, s, link, qs); }
    } else {
      var q := qs[0];
      ArrivingOn(top, members, s, link, got, qs);
      CalmOn(top, members, s, link, got, qs);
      AfterOn(b, members, s, link, qs);
      ReceiveIff(b, top, members, s, link, got, q);
      RunKeepsInv(Take(b, members, s, link, q).bundle, top[link[q] := q], members, s, link, got + {q}, qs[1..]);
      ElemsOn(got, qs);
    }
  }

  /** One run after another. */
  lemma {:induction false} ArrivingJoin(top: seq<nat>, members: seq<nat>, s: seq<Slot>, link: seq<nat>, got: set<nat>,
                                        qs: seq<nat>, more: seq<nat>)
    requires Arriving(top, members, s, link, got, qs)
    requires Arriving(TopAfter(top, link, qs), members, s, link, got + Elems(qs), more)
    ensures Arriving(top, members, s, link, got, qs + more)
    decreases |qs|
  {
    hide Arrives;
    if qs == [] {
      assert qs + more == more && got + Elems(qs) == got;
    } else {
      var q := qs[0];
      assert qs == [q] + qs[1..];
      assert got + {q} + Elems(qs[1..]) == got + Elems(qs);
      ArrivesHere(top, members, s, link, got, q);
      ArrivingJoin(top[link[q] := q], members, s, link, got + {q}, qs[1..], more);
      assert (qs + more)[1..] == qs[1..] + more;
    }
  }

  lemma {:induction false} AfterJoin(b: Bundle, members: seq<nat>, s: seq<Slot>, link: seq<nat>, qs: seq<nat>,
      more: seq<nat>)
    requires Ready(b, members) && Routed(s, link, members) && Inside(qs, s) && Inside(more, s)
    ensures Inside(qs + more, s)
    ensures var x := After(b, members, s, link, qs); var y := After(x.bundle, members, s, link, more);
            After(b, members, s, link, qs + more) == Received(y.bundle, x.frames + y.frames)
    decreases |qs|
  {
    hide Take, Ready, Routed;
    if qs == [] {
      assert qs + more == more;
    } else {
      AfterJoin(Take(b, members, s, link, qs[0]).bundle, members, s, link, qs[1..], more);
      assert (qs + more)[1..] == qs[1..] + more;
    }
  }

  function Below(n: nat): (u: set<nat>)
    ensures forall q: nat :: q in u <==> q < n
  {
    if n == 0 then {} else Below(n - 1) + {n - 1}
  }

  /** Below 2^32 fragments every run is calm. */
  lemma {:induction false} FirstRoundIsCalm(top: seq<nat>, members: seq<nat>, s: seq<Slot>, link: seq<nat>,
      got: set<nat>, qs: seq<nat>)
    requires Stream(s) && |s| < WORD && Routed(s, link, members) && Arriving(top, members, s, link, got, qs)
    requires Latest(top, members, link, got) && InOrder(link, got) && Near(top, members, got)
    ensures CalmRun(top, members, s, link, got, qs)
    decreases |qs|
  {
    hide Stream, Lead, Latest, InOrder, Near, Routed, Bound;
    if qs != [] {
      var q := qs[0];
      var top', got' := top[link[q] := q], got + {q};
      LatestNext(top, members, s, link, got, q);
      FirstRound(top', members, s, link, got');
      TogetherIsCalm(top', members, s, link, got');
      FirstRoundIsCalm(top', members, s, link, got', qs[1..]);
    }
  }

  lemma FirstRound(top: seq<nat>, members: seq<nat>, s: seq<Slot>, link: seq<nat>, got: set<nat>)
    requires Routed(s, link, members) && Latest(top, members, link, got) && |s| < WORD
    ensures forall k :: 0 <= k < |members| ==> top[members[k]] / WORD >= Lead(top, members) / WORD
    ensures !Stranded(s, Lead(top, members))
  {
    hide Lead;
    var k :| 0 <= k < |members| && top[members[k]] == Lead(top, members);
  }
}
