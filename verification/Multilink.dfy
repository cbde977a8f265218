/** Multilink reassembly as a function: fragments go to the slot their number names in a ring of 512, and
    every frame whose fragments are all there leaves (RFC 1990, sections 3 and 4.1). */
module Multilink {
  import opened Common

  const MAXFRAGNUM := 512
  const MAXFRAGLEN := 1496
  const MAXETHER := 2618
  const MAX_SEQ := 0x100_0000          // long sequence numbers have 24 bits

  /** A received fragment; one without data is an empty slot. */
  datatype Slot = Slot(data: seq<Byte>, flags: Byte, num: U32)

  predicate Begins(f: Slot) { BeginBit(f.flags) }

  predicate Ends(f: Slot) { EndBit(f.flags) }

  predicate Full(f: Slot) { f.data != [] }

  /** The fragment array, and the number and index where the next frame begins. */
  datatype Ring = Ring(slots: seq<Slot>, index: nat, start: U32)

  predicate Shape(r: Ring) { |r.slots| == MAXFRAGNUM && r.index < MAXFRAGNUM }

  /** Indexes follow numbers: the start's, and every occupied slot's. */
  ghost predicate Congruent(r: Ring) {
    && Shape(r) && r.index == r.start % MAXFRAGNUM
    && Placed(r.slots)
  }

  ghost predicate Placed(slots: seq<Slot>) {
    |slots| == MAXFRAGNUM && forall i :: 0 <= i < MAXFRAGNUM && Full(slots[i]) ==> slots[i].num % MAXFRAGNUM == i
  }

  function Next(i: nat): nat { (i + 1) % MAXFRAGNUM }

  function Clear(slots: seq<Slot>, i: nat): seq<Slot>
    requires i < |slots|
  {
    slots[i := slots[i].(data := [], flags := 0)]
  }

  // ---- finding a frame ----

  /** Where the search for an end stopped. */
  datatype Search = Search(slots: seq<Slot>, i: nat, b: nat, found: bool)

  /** From a begin on: the end of the frame, a gap, or a fragment that does not belong here. */
  function FindEnd(slots: seq<Slot>, i: nat, b: nat, m: nat): (e: Search)
    requires |slots| == MAXFRAGNUM && i < MAXFRAGNUM
    ensures |e.slots| == MAXFRAGNUM && e.i < MAXFRAGNUM && e.b >= b && (b < m ==> e.b <= m)
    decreases m - b
  {
    if b >= m || !Full(slots[i]) then Search(slots, i, b, false)
    else if slots[i].num != b then Search(Clear(slots, i), i, b, false)
    else if Ends(slots[i]) then Search(slots, i, b, true)
    else FindEnd(slots, Next(i), b + 1, m)
  }

  /** What the inner loop walked over: fragments that stand where their numbers say. Then it found the end, a
      gap, a fragment to clear, or `m`. */
  lemma {:induction false} FindEndWalks(slots: seq<Slot>, b: nat, m: nat)
    requires |slots| == MAXFRAGNUM
    ensures var e := FindEnd(slots, b % MAXFRAGNUM, b, m);
            && e.i == e.b % MAXFRAGNUM
            && (forall x: nat :: b <= x < e.b ==> Full(slots[x % MAXFRAGNUM]) && slots[x % MAXFRAGNUM].num == x)
            && (e.slots == slots || e.slots == Clear(slots, e.i))
            && (!e.found && e.b < m ==> !Full(e.slots[e.i]))
    decreases m - b
  {
    hide Full, Ends, Next;
    NextIs(b);
    var i := b % MAXFRAGNUM;
    if b < m && Full(slots[i]) {
      if slots[i].num != b {
        ClearedIsEmpty(slots, i);
      } else if !Ends(slots[i]) {
        FindEndWalks(slots, b + 1, m);
      }
    }
  }

  lemma ClearedIsEmpty(slots: seq<Slot>, i: nat)
    requires i < |slots|
    ensures !Full(Clear(slots, i)[i])
  {
  }

  lemma NextIs(q: nat)
    ensures Next(q % MAXFRAGNUM) == (q + 1) % MAXFRAGNUM
  {
  }

  /** The fragment before `m` is still in its slot. */
  predicate LastHeld(slots: seq<Slot>, m: U32)
    requires |slots| == MAXFRAGNUM
  {
    m > 0 && Full(slots[(m - 1) % MAXFRAGNUM]) && slots[(m - 1) % MAXFRAGNUM].num == m - 1
  }

  /** How long the search can still go on. When `m` is the largest word, the inner loop can leave the count at
      `m`, and it then wraps and goes once round all the words; but only over the fragment before `m`, which the
      lap then meets under another number and clears. */
  function Laps(slots: seq<Slot>, b: U32, m: U32): nat
    requires |slots| == MAXFRAGNUM
  {
    (if b < m then m - b else 0) +
    if m == WORD - 1 && (m - 1) % MAXFRAGNUM < b && LastHeld(slots, m) then WORD else 0
  }

  lemma StepOn(slots: seq<Slot>, b: U32, m: U32)
    requires |slots| == MAXFRAGNUM && b < m
    ensures var i := b % MAXFRAGNUM; Next(i) == (b + 1) % MAXFRAGNUM
    ensures var i := b % MAXFRAGNUM;
            && (!Full(slots[i]) || slots[i].num == b ==> Laps(slots, b + 1, m) < Laps(slots, b, m))
            && Laps(Clear(slots, i), b + 1, m) < Laps(slots, b, m)
  {
    hide Next;
    NextIs(b);
    var i, j := b % MAXFRAGNUM, (m - 1) % MAXFRAGNUM;
    ClearedIsEmpty(slots, i);
    if b == j {
      assert i == j;
      assert m == WORD - 1 && slots[i].num == b ==> !LastHeld(slots, m);
    }
  }

  lemma SearchOn(slots: seq<Slot>, b: U32, m: U32)
    requires |slots| == MAXFRAGNUM && b < m
    ensures var e := FindEnd(slots, b % MAXFRAGNUM, b, m);
            && e.i == e.b % MAXFRAGNUM && Next(e.i) == (e.b + 1) % WORD % MAXFRAGNUM
            && (!e.found ==> Laps(e.slots, (e.b + 1) % WORD, m) < Laps(slots, b, m))
  {
    hide FindEnd, Full, Laps, Next;
    FindEndWalks(slots, b, m);
    var e := FindEnd(slots, b % MAXFRAGNUM, b, m);
    StepsTogether(e.b);
    if !e.found { LapsFall(slots, b, m, e); }
  }

  /** After a walk that found no end. */
  lemma LapsFall(slots: seq<Slot>, b: U32, m: U32, e: Search)
    requires |slots| == |e.slots| == MAXFRAGNUM && b < m && b <= e.b <= m && e.i == e.b % MAXFRAGNUM
    requires forall x: nat :: b <= x < e.b ==> Full(slots[x % MAXFRAGNUM]) && slots[x % MAXFRAGNUM].num == x
    requires (e.slots == slots || e.slots == Clear(slots, e.i)) && (e.b < m ==> !Full(e.slots[e.i]))
    ensures Laps(e.slots, (e.b + 1) % WORD, m) < Laps(slots, b, m)
  {
    hide Full, LastHeld, Clear;
    if m == WORD - 1 {
      LastOfAll(slots, b, m, e);
    }
  }

  /** The slot of the fragment before the largest word is 510. */
  lemma LastOfAll(slots: seq<Slot>, b: U32, m: U32, e: Search)
    requires |slots| == |e.slots| == MAXFRAGNUM && b < m == WORD - 1 && b <= e.b <= m && e.i == e.b % MAXFRAGNUM
    requires forall x: nat :: b <= x < e.b ==> Full(slots[x % MAXFRAGNUM]) && slots[x % MAXFRAGNUM].num == x
    requires (e.slots == slots || e.slots == Clear(slots, e.i)) && (e.b < m ==> !Full(e.slots[e.i]))
    ensures (m - 1) % MAXFRAGNUM == 510
    ensures LastHeld(e.slots, m) ==> LastHeld(slots, m)
    ensures b <= 510 && e.b < m && 510 < e.b + 1 ==> !LastHeld(e.slots, m)
    ensures e.b == m ==> b > 510 && LastHeld(slots, m)
  {
    hide Full;
    ClearedIsEmpty(slots, e.i);
    if b <= 510 < e.b { assert slots[510 % MAXFRAGNUM].num == 510; }
    if e.b == m { assert slots[(m - 1) % MAXFRAGNUM].num == m - 1; }
  }

  /** Stepping to the next number steps to the next index, even where the word wraps. */
  lemma StepsTogether(x: U32)
    ensures (x + 1) % WORD % MAXFRAGNUM == Next(x % MAXFRAGNUM)
  {
  }

  /** The loop at find_frame: what does not belong is cleared, and the start moves to the last begin seen,
      until a complete frame or the number `m` is reached. The count `b` is a word and wraps. */
  function FindFrame(r: Ring, i: nat, b: U32, m: U32): (r': Ring)
    requires Shape(r) && i == b % MAXFRAGNUM
    ensures Shape(r')
    decreases Laps(r.slots, b, m)
  {
    if b >= m then r
    else
      StepOn(r.slots, b, m);
      if !Full(r.slots[i]) then FindFrame(r, Next(i), b + 1, m)
      else if r.slots[i].num != b then FindFrame(r.(slots := Clear(r.slots, i)), Next(i), b + 1, m)
      else if !Begins(r.slots[i]) then FindFrame(r, Next(i), b + 1, m)
      else
        var e := FindEnd(r.slots, i, b, m);
        var r' := Ring(e.slots, i, b);
        SearchOn(r.slots, b, m);
        if e.found then r' else FindFrame(r', Next(e.i), (e.b + 1) % WORD, m)
  }

  // ---- assembling ----

  /** The first end from index `i` on, at most `n` slots away. */
  function EndFrom(slots: seq<Slot>, i: nat, n: nat): (e: Option<nat>)
    requires |slots| == MAXFRAGNUM && i < MAXFRAGNUM
    ensures e.Some? ==> e.value < MAXFRAGNUM && Full(slots[e.value]) && Ends(slots[e.value]) && Full(slots[i])
    decreases n
  {
    if n == 0 || !Full(slots[i]) then None
    else if Ends(slots[i]) then Some(i)
    else EndFrom(slots, Next(i), n - 1)
  }

  /** The distance from one index forward to another. */
  function Ahead(i: nat, e: nat): (n: nat)
    requires i < MAXFRAGNUM && e < MAXFRAGNUM
    ensures n < MAXFRAGNUM && (n == 0 <==> i == e)
  {
    if i <= e then e - i else e + MAXFRAGNUM - i
  }

  /** The data from one index to another. */
  function Data(slots: seq<Slot>, i: nat, e: nat): seq<Byte>
    requires |slots| == MAXFRAGNUM && i < MAXFRAGNUM && e < MAXFRAGNUM
    decreases Ahead(i, e)
  {
    if i == e then slots[i].data else slots[i].data + Data(slots, Next(i), e)
  }

  function ClearAll(slots: seq<Slot>, i: nat, e: nat): (s: seq<Slot>)
    requires |slots| == MAXFRAGNUM && i < MAXFRAGNUM && e < MAXFRAGNUM
    ensures |s| == MAXFRAGNUM
    decreases Ahead(i, e)
  {
    if i == e then Clear(slots, i) else ClearAll(Clear(slots, i), Next(i), e)
  }

  /** What follows: nothing, another search, or another assembly. */
  datatype Then = Stop | Find | Again

  datatype Assembly = Assembly(ring: Ring, frames: seq<seq<Byte>>, next: Then)

  /** The code at assembling_frame: the frame at the start, if all of it is there, leaves the ring. */
  function Assemble(r: Ring, m: nat): (a: Assembly)
    requires Shape(r)
    ensures Shape(a.ring)
  {
    if !Full(r.slots[r.index]) then Assembly(r, [], Stop)
    else if !Begins(r.slots[r.index]) then Assembly(r.(index := Next(r.index), start := (r.start + 1) % WORD), [], Stop)
    else
      match EndFrom(r.slots, r.index, MAXFRAGNUM)
      case None => Assembly(r, [], Stop)
      case Some(e) =>
        var frame := Data(r.slots, r.index, e);
        var i, start := Next(e), (r.slots[e].num + 1) % WORD;
        var slots := ClearAll(r.slots, r.index, e);
        var slots' := if Full(slots[i]) && slots[i].num != start then Clear(slots, i) else slots;
        Assembly(Ring(slots', i, start), if 4 + |frame| > MAXETHER then [] else [frame],
                 if start <= m then Find else if Full(slots'[i]) && Begins(slots'[i]) then Again else Stop)
  }

  /** Occupied slots: what every further assembly uses up. */
  function Occupied(slots: seq<Slot>): nat {
    if slots == [] then 0 else Occupied(slots[..|slots| - 1]) + if Full(slots[|slots| - 1]) then 1 else 0
  }

  lemma {:induction false} ClearOccupied(slots: seq<Slot>, i: nat)
    requires i < |slots|
    ensures Occupied(Clear(slots, i)) == Occupied(slots) - if Full(slots[i]) then 1 else 0
    decreases |slots|
  {
    var n := |slots| - 1;
    if i < n {
      ClearOccupied(slots[..n], i);
      assert Clear(slots, i)[..n] == Clear(slots[..n], i);
    } else {
      assert Clear(slots, i)[..n] == slots[..n];
    }
  }

  lemma {:induction false} FindEndOccupied(slots: seq<Slot>, i: nat, b: nat, m: nat)
    requires |slots| == MAXFRAGNUM && i < MAXFRAGNUM
    ensures Occupied(FindEnd(slots, i, b, m).slots) <= Occupied(slots)
    decreases m - b
  {
    hide Occupied;
    if b >= m || !Full(slots[i]) {
    } else if slots[i].num != b {
      ClearOccupied(slots, i);
    } else if !Ends(slots[i]) {
      FindEndOccupied(slots, Next(i), b + 1, m);
    }
  }

  lemma {:induction false} FindFrameOccupied(r: Ring, i: nat, b: U32, m: U32)
    requires Shape(r) && i == b % MAXFRAGNUM
    ensures Occupied(FindFrame(r, i, b, m).slots) <= Occupied(r.slots)
    decreases Laps(r.slots, b, m)
  {
    hide Occupied, FindEnd, Laps, Full;
    if b < m {
      StepOn(r.slots, b, m);
      if !Full(r.slots[i]) {
        FindFrameOccupied(r, Next(i), b + 1, m);
      } else if r.slots[i].num != b {
        ClearOccupied(r.slots, i);
        FindFrameOccupied(r.(slots := Clear(r.slots, i)), Next(i), b + 1, m);
      } else if !Begins(r.slots[i]) {
        FindFrameOccupied(r, Next(i), b + 1, m);
      } else {
        FindEndOccupied(r.slots, i, b, m);
        SearchOn(r.slots, b, m);
        var e := FindEnd(r.slots, i, b, m);
        if !e.found { FindFrameOccupied(Ring(e.slots, i, b), Next(e.i), (e.b + 1) % WORD, m); }
      }
    }
  }

  lemma {:induction false} ClearAllOccupied(slots: seq<Slot>, i: nat, e: nat)
    requires |slots| == MAXFRAGNUM && i < MAXFRAGNUM && e < MAXFRAGNUM
    ensures Occupied(ClearAll(slots, i, e)) <= Occupied(slots) - if Full(slots[i]) then 1 else 0
    decreases Ahead(i, e)
  {
    hide Occupied;
    ClearOccupied(slots, i);
    if i != e { ClearAllOccupied(Clear(slots, i), Next(i), e); }
  }

  /** Every assembly that calls for more has emptied a slot: the loop through both labels ends. */
  lemma AssembleEats(r: Ring, m: nat)
    requires Shape(r) && Assemble(r, m).next != Stop
    ensures Occupied(Assemble(r, m).ring.slots) < Occupied(r.slots)
  {
    hide Occupied, ClearAll, EndFrom, Data;
    var e := EndFrom(r.slots, r.index, MAXFRAGNUM).value;
    ClearAllOccupied(r.slots, r.index, e);
    ClearOccupied(ClearAll(r.slots, r.index, e), Next(e));
  }

  // ---- indexes follow numbers ----

  lemma ClearPlaced(slots: seq<Slot>, i: nat)
    requires Placed(slots) && i < MAXFRAGNUM
    ensures Placed(Clear(slots, i))
  {
  }

  lemma {:induction false} FindFrameCongruent(r: Ring, i: nat, b: U32, m: U32)
    requires Congruent(r) && i == b % MAXFRAGNUM
    ensures Congruent(FindFrame(r, i, b, m))
    decreases Laps(r.slots, b, m)
  {
    hide Placed, Next, FindEnd, Laps, Full;
    if b < m {
      StepOn(r.slots, b, m);
      ClearPlaced(r.slots, i);
      if !Full(r.slots[i]) {
        FindFrameCongruent(r, Next(i), b + 1, m);
      } else if r.slots[i].num != b {
        FindFrameCongruent(r.(slots := Clear(r.slots, i)), Next(i), b + 1, m);
      } else if !Begins(r.slots[i]) {
        FindFrameCongruent(r, Next(i), b + 1, m);
      } else {
        FindEndWalks(r.slots, b, m);
        SearchOn(r.slots, b, m);
        var e := FindEnd(r.slots, i, b, m);
        ClearPlaced(r.slots, e.i);
        if !e.found { FindFrameCongruent(Ring(e.slots, i, b), Next(e.i), (e.b + 1) % WORD, m); }
      }
    }
  }

  lemma {:induction false} ClearAllPlaced(slots: seq<Slot>, i: nat, e: nat)
    requires |slots| == MAXFRAGNUM && Placed(slots) && i < MAXFRAGNUM && e < MAXFRAGNUM
    ensures Placed(ClearAll(slots, i, e))
    decreases Ahead(i, e)
  {
    hide Placed;
    ClearPlaced(slots, i);
    if i != e { ClearAllPlaced(Clear(slots, i), Next(i), e); }
  }

  lemma AssembleCongruent(r: Ring, m: nat)
    requires Congruent(r)
    ensures Congruent(Assemble(r, m).ring)
  {
    hide ClearAll, EndFrom, Data, Placed, Next;
    StepsTogether(r.start);
    if Full(r.slots[r.index]) && Begins(r.slots[r.index]) {
      match EndFrom(r.slots, r.index, MAXFRAGNUM)
      case None =>
      case Some(e) =>
        ClearAllPlaced(r.slots, r.index, e);
        PlacedAt(r.slots, e);
        StepsTogether(r.slots[e].num);
        ClearPlaced(ClearAll(r.slots, r.index, e), (r.slots[e].num + 1) % WORD % MAXFRAGNUM);
    }
  }

  lemma PlacedAt(slots: seq<Slot>, i: nat)
    requires Placed(slots) && i < MAXFRAGNUM && Full(slots[i])
    ensures slots[i].num % MAXFRAGNUM == i
  {
  }

  datatype Pumped = Pumped(ring: Ring, frames: seq<seq<Byte>>)

  /** What one round leaves: a congruent ring, with a slot fewer occupied if there is another round. */
  lemma RoundKeeps(r: Ring, m: U32, find: bool)
    requires Congruent(r)
    ensures var a := Assemble(if find then FindFrame(r, r.index, r.start, m) else r, m);
            Congruent(a.ring) && (a.next != Stop ==> Occupied(a.ring.slots) < Occupied(r.slots))
  {
    hide FindFrame, Assemble, Occupied, Placed;
    if find { FindFrameCongruent(r, r.index, r.start, m); FindFrameOccupied(r, r.index, r.start, m); }
    var r' := if find then FindFrame(r, r.index, r.start, m) else r;
    AssembleCongruent(r', m);
    if Assemble(r', m).next != Stop { AssembleEats(r', m); }
  }

  /** Both labels, as often as one calls for the other. */
  function Pump(r: Ring, m: U32, find: bool): (p: Pumped)
    requires Congruent(r)
    ensures Congruent(p.ring)
    decreases Occupied(r.slots)
  {
    RoundKeeps(r, m, find);
    var a := Assemble(if find then FindFrame(r, r.index, r.start, m) else r, m);
    if a.next == Stop then Pumped(a.ring, a.frames)
    else
      var p := Pump(a.ring, m, a.next == Find);
      Pumped(p.ring, a.frames + p.frames)
  }

  // ---- receiving ----

  /** The difference of two words as a signed number. */
  function Signed(x: int): (d: int)
    ensures -0x8000_0000 <= d < 0x8000_0000 && (d - x) % WORD == 0
  {
    var d := x % WORD;
    if d >= 0x8000_0000 then d - WORD else d
  }

  /** A 24-bit number as the nearest full one to `m`. */
  function Expand(m: U32, low: nat): (x: U32)
    requires low < MAX_SEQ
  {
    var x := m - m % MAX_SEQ + low;
    if Signed(m - x) > MAX_SEQ / 2 - 1 then (x + MAX_SEQ) % WORD
    else if Signed(x - m) > MAX_SEQ / 2 - 1 then (x - MAX_SEQ) % WORD
    else x
  }

  predicate Linked(members: seq<nat>, last: seq<U32>) {
    members != [] && forall k :: 0 <= k < |members| ==> members[k] < |last|
  }

  /** The smallest of the last numbers of the member links. */
  function MinLast(last: seq<U32>, members: seq<nat>): (m: U32)
    requires Linked(members, last)
    ensures forall k :: 0 <= k < |members| ==> m <= last[members[k]]
    ensures exists k :: 0 <= k < |members| && last[members[k]] == m
    decreases |members|
  {
    var n := |members| - 1;
    if n == 0 then last[members[0]]
    else
      var m, x := MinLast(last, members[..n]), last[members[n]];
      if x < m then x else m
  }

  /** A bundle: its ring, M, and the last number received on each session. */
  datatype Bundle = Bundle(ring: Ring, m: U32, last: seq<U32>)

  datatype Received = Received(bundle: Bundle, frames: seq<seq<Byte>>)

  /** After a long break the ring is moved on to `m`. */
  function Skip(r: Ring, m: U32): (r': Ring)
    requires Shape(r)
    ensures Shape(r')
  {
    var d := Signed(m - r.start);
    if d >= MAXFRAGNUM then Ring(r.slots, (d + r.index) % MAXFRAGNUM, m) else r
  }

  /** Where a fragment goes; one without a place is lost. */
  function Place(r: Ring, x: U32): (i: Option<nat>)
    requires Shape(r)
    ensures i.Some? ==> i.value < MAXFRAGNUM
  {
    var d := Signed(x - r.start);
    if 0 <= d < MAXFRAGNUM then Some((d + r.index) % MAXFRAGNUM) else None
  }

  /** A neighbour that is not adjacent in number is left over from an earlier round. */
  predicate Stray(r: Ring, i: nat, x: U32)
    requires Shape(r) && i < MAXFRAGNUM
  {
    Full(r.slots[i]) && r.slots[i].num != x
  }

  function Cleared(r: Ring, i: nat): (r': Ring)
    requires Shape(r) && i < MAXFRAGNUM
    ensures Shape(r')
  {
    r.(slots := Clear(r.slots, i))
  }

  lemma SkipCongruent(r: Ring, m: U32)
    requires Congruent(r)
    ensures Congruent(Skip(r, m))
  {
    hide Placed, Signed;
    IndexOf(Signed(m - r.start), r.index, r.start, m);
  }

  /** An offset from the start leads to the index of the number, even where the word wraps. */
  lemma IndexOf(d: int, i: nat, start: U32, x: U32)
    requires (d - (x - start)) % WORD == 0 && i == start % MAXFRAGNUM
    ensures (d + i) % MAXFRAGNUM == x % MAXFRAGNUM
  {
    var k, j := (d - (x - start)) / WORD, start / MAXFRAGNUM;
    assert d + i == x + MAXFRAGNUM * (0x80_0000 * k - j);
    WholeTurns(x, 0x80_0000 * k - j);
  }

  lemma WholeTurns(x: int, k: int)
    ensures (x + MAXFRAGNUM * k) % MAXFRAGNUM == x % MAXFRAGNUM
  {
  }

  lemma PlaceIs(r: Ring, x: U32)
    requires Congruent(r) && Place(r, x).Some?
    ensures Place(r, x).value == x % MAXFRAGNUM
  {
    hide Placed, Signed;
    IndexOf(Signed(x - r.start), r.index, r.start, x);
  }

  lemma InsertedCongruent(r: Ring, f: Slot)
    requires Congruent(r)
    ensures Congruent(r.(slots := r.slots[f.num % MAXFRAGNUM := f]))
  {
  }

  lemma ClearedCongruent(r: Ring, i: nat)
    requires Congruent(r) && i < MAXFRAGNUM
    ensures Congruent(Cleared(r, i))
  {
  }

  /** The fragment in its place, the neighbours checked, and whatever can be assembled. */
  function Insert(r: Ring, i: nat, f: Slot, m: U32): (p: Pumped)
    requires Congruent(r) && i == f.num % MAXFRAGNUM
    ensures Congruent(p.ring)
  {
    hide Placed, Stray, Pump;
    InsertedCongruent(r, f);
    var r0 := r.(slots := r.slots[i := f]);
    var next, prev := Next(i), (i - 1) % MAXFRAGNUM;
    ClearedCongruent(r0, next);
    var after := next != r.index && Stray(r0, next, (f.num + 1) % WORD);
    var r1 := if after then Cleared(r0, next) else r0;
    if after && Begins(f) && !Ends(f) then Pumped(r1, [])
    else
      ClearedCongruent(r1, prev);
      var before := i != r.index && Stray(r1, prev, (f.num - 1) % WORD);
      var r2 := if before then Cleared(r1, prev) else r1;
      if before && Ends(f) && !Begins(f) then Pumped(r2, [])
      else Pump(r2, m, true)
  }

  /** The ring is moved on after a long break, and the fragment stored if it has a place in it. */
  function Settled(r: Ring, f: Slot, m: U32): (p: Pumped)
    requires Congruent(r)
    ensures Congruent(p.ring)
  {
    hide Placed, Insert, Skip, Place;
    SkipCongruent(r, m);
    var r0 := Skip(r, m);
    match Place(r0, f.num)
    case None => Pumped(r0, [])
    case Some(i) => PlaceIs(r0, f.num); Insert(r0, i, f, m)
  }

  /** M after a number arrived. */
  function NewM(m: U32, x: U32, last: seq<U32>, members: seq<nat>): U32
    requires Linked(members, last)
  {
    if x < m then x else MinLast(last, members)
  }

  /** processmpin: a fragment with flags, 24-bit number and data arrives on session `s`. In every run,
      whatever arrives, the start index and every occupied slot stay congruent to the start number and the
      stored number. */
  function Receive(b: Bundle, members: seq<nat>, s: nat, flags: Byte, low: nat, data: seq<Byte>): (r: Received)
    requires Congruent(b.ring) && s in members && Linked(members, b.last) && low < MAX_SEQ
    ensures Congruent(r.bundle.ring) && Linked(members, r.bundle.last) && |r.bundle.last| == |b.last|
  {
    hide Placed, Settled, Expand, MinLast;
    if 4 + |data| > MAXFRAGLEN then Received(b, [])
    else
      var x := Expand(b.m, low);
      var last := b.last[s := x];
      var m := NewM(b.m, x, last, members);
      var p := Settled(b.ring, Slot(data, flags, x), m);
      Received(Bundle(p.ring, m, last), p.frames)
  }
}
