/** After a long break, when M is 512 or more past the start of the ring, reassembly begins afresh at M. */
module MultilinkBreak {
  import opened Common
  import opened Multilink
  import opened MultilinkRun

  /** A fragment of at most 1496 bytes arrives for a bundle that is in order. */
  ghost predicate Arrival(b: Bundle, members: seq<nat>, s: nat, low: nat, data: seq<Byte>) {
    Congruent(b.ring) && s in members && Linked(members, b.last) && low < MAX_SEQ && 4 + |data| <= 1496
  }

  /** What M becomes. */
  function MAfter(b: Bundle, members: seq<nat>, s: nat, low: nat): (m: U32)
    requires s in members && Linked(members, b.last) && low < MAX_SEQ
  {
    NewM(b.m, Expand(b.m, low), b.last[s := Expand(b.m, low)], members)
  }

  /** M follows a number that is smaller at once; otherwise it becomes the smallest last number of the members. */
  lemma MIs(b: Bundle, members: seq<nat>, s: nat, flags: Byte, low: nat, data: seq<Byte>)
    requires Arrival(b, members, s, low, data)
    ensures var r, x := Receive(b, members, s, flags, low, data).bundle, Expand(b.m, low);
            && r.last == b.last[s := x] && Linked(members, r.last)
            && if x < b.m then r.m == x
               else
                 && (forall k :: 0 <= k < |members| ==> r.m <= r.last[members[k]])
                 && (exists k :: 0 <= k < |members| && r.last[members[k]] == r.m)
  {
    hide Placed, Signed, Expand, Settled;
  }

  /** M is out of reach of the ring. */
  predicate Broken(r: Ring, m: U32) { Signed(m - r.start) >= 512 }

  /** The ring as if it had begun at `m`. */
  function StartedAt(r: Ring, m: U32): Ring { Ring(r.slots, m % 512, m) }

  /** When M is out of reach, the fragment is received as if the ring had begun at M all along. */
  lemma BreakIsNewStart(b: Bundle, members: seq<nat>, s: nat, flags: Byte, low: nat, data: seq<Byte>)
    requires Arrival(b, members, s, low, data) && Broken(b.ring, MAfter(b, members, s, low))
    ensures var b' := b.(ring := StartedAt(b.ring, MAfter(b, members, s, low)));
            Congruent(b'.ring) && Receive(b, members, s, flags, low, data) == Receive(b', members, s, flags, low, data)
  {
    hide Placed, Signed, Expand, MinLast, Insert, Place, Settled;
    var m := MAfter(b, members, s, low);
    MovedOn(b.ring, m);
    SettledMoved(b.ring, Slot(data, flags, Expand(b.m, low)), m);
  }

  lemma MovedOn(r: Ring, m: U32)
    requires Congruent(r) && Broken(r, m)
    ensures Congruent(StartedAt(r, m)) && Skip(r, m) == StartedAt(r, m)
    ensures Skip(StartedAt(r, m), m) == StartedAt(r, m)
  {
    hide Placed, Signed;
    IndexOf(Signed(m - r.start), r.index, r.start, m);
    SignedNone();
  }

  lemma SignedNone()
    ensures Signed(0) == 0
  {
  }

  lemma SettledMoved(r: Ring, f: Slot, m: U32)
    requires Congruent(r) && Broken(r, m)
    ensures Congruent(StartedAt(r, m)) && Settled(r, f, m) == Settled(StartedAt(r, m), f, m)
  {
    hide Placed, Insert, Place, Skip, Broken;
    MovedOn(r, m);
  }

  // ---- a whole frame right after the break ----

  /** The slot behind the fragment `x` holds the next one, and that begins a frame. */
  predicate GoesOn(r: Ring, x: U32)
    requires Shape(r)
  {
    var f := r.slots[(x + 1) % WORD % 512];
    Full(f) && Begins(f) && f.num == (x + 1) % WORD
  }

  /** No slot but `i` is occupied. */
  ghost predicate Alone(slots: seq<Slot>, i: nat) { forall j :: 0 <= j < |slots| && j != i ==> !Full(slots[j]) }

  /** The frame `data` leaves first; alone, and with the start behind it, unless the next fragment is there and
      begins a frame, or the number wraps and something else is held. */
  ghost predicate Leaves(r: Ring, x: U32, data: seq<Byte>, frames: seq<seq<Byte>>, start: U32)
    requires Shape(r)
  {
    && frames != [] && frames[0] == data
    && ((x + 1 < WORD && !GoesOn(r, x)) || Alone(r.slots, x % 512) ==> frames == [data] && start == (x + 1) % WORD)
  }

  /** A frame in one fragment that is itself the new M leaves at once. */
  lemma WholeFrameAfterBreak(b: Bundle, members: seq<nat>, s: nat, flags: Byte, low: nat, data: seq<Byte>)
    requires Arrival(b, members, s, low, data) && Broken(b.ring, MAfter(b, members, s, low))
    requires data != [] && BeginBit(flags) && EndBit(flags) && Expand(b.m, low) == MAfter(b, members, s, low)
    ensures var r := Receive(b, members, s, flags, low, data);
            Leaves(b.ring, Expand(b.m, low), data, r.frames, r.bundle.ring.start)
  {
    hide Placed, Signed, Expand, MinLast, Insert, Place, Settled, Leaves;
    var m := MAfter(b, members, s, low);
    SettledWhole(b.ring, Slot(data, flags, m), m);
  }

  lemma SettledWhole(r: Ring, f: Slot, m: U32)
    requires Congruent(r) && Broken(r, m) && f.num == m && Full(f) && Begins(f) && Ends(f) && |f.data| <= 1492
    ensures var p := Settled(r, f, m); Leaves(r, m, f.data, p.frames, p.ring.start)
  {
    hide Placed, Insert, Signed, Broken, Begins, Ends, GoesOn, Alone;
    MovedOn(r, m);
    SignedNone();
    ModSmall(m % 512, 512);
    InsertWhole(StartedAt(r, m), f, m);
    SameGoing(r, m);
  }

  lemma SameGoing(r: Ring, m: U32)
    requires Shape(r)
    ensures Shape(StartedAt(r, m)) && GoesOn(StartedAt(r, m), m) == GoesOn(r, m)
  {
  }

  lemma ModSmall(x: nat, n: nat)
    requires x < n
    ensures x % n == x
  {
  }

  lemma InsertWhole(r: Ring, f: Slot, m: U32)
    requires Congruent(r) && r.start == m == f.num && Full(f) && Begins(f) && Ends(f) && |f.data| <= 1492
    ensures var p := Insert(r, m % 512, f, m); Leaves(r, m, f.data, p.frames, p.ring.start)
  {
    hide Placed, Pump, Full, Begins, Ends, GoesOn, Alone, Stray;
    var r0 := r.(slots := r.slots[m % 512 := f]);
    InsertedCongruent(r, f);
    StepsTogether(m);
    var next := Next(m % 512);
    ClearedCongruent(r0, next);
    var r1 := if Stray(r0, next, (m + 1) % WORD) then Cleared(r0, next) else r0;
    StrayGone(r, f, m);
    PumpWhole(r1, f, m);
  }

  /** What is left in the next slot is the next fragment or nothing. */
  lemma StrayGone(r: Ring, f: Slot, m: U32)
    requires Shape(r)
    ensures var r0, next := r.(slots := r.slots[m % 512 := f]), Next(m % 512);
            var r1 := if Stray(r0, next, (m + 1) % WORD) then Cleared(r0, next) else r0;
            && next != m % 512 && next == (m + 1) % WORD % 512 && r1.slots[m % 512] == f
            && (GoesOn(r1, m) ==> GoesOn(r, m))
            && (Alone(r.slots, m % 512) ==> Alone(r1.slots, m % 512))
            && (Full(r1.slots[next]) ==> r1.slots[next].num == (m + 1) % WORD)
  {
    StepsTogether(m);
  }

  /** The frame at the start, in one fragment. */
  lemma AssembleWhole(r: Ring, m: U32)
    requires Congruent(r) && r.start == m
    requires var f := r.slots[r.index]; Full(f) && Begins(f) && Ends(f) && f.num == m && |f.data| <= 1492
    requires var g := r.slots[Next(r.index)]; Full(g) ==> g.num == (m + 1) % WORD
    ensures var a := Assemble(r, m);
            && a.frames == [r.slots[r.index].data]
            && a.ring == Ring(Clear(r.slots, r.index), Next(r.index), (m + 1) % WORD)
            && a.next == (if m + 1 == WORD then Find else if GoesOn(r, m) then Again else Stop)
  {
    hide Placed, Begins, Ends;
    StepsTogether(m);
    assert EndFrom(r.slots, r.index, MAXFRAGNUM) == Some(r.index);
  }

  lemma PumpWhole(r: Ring, f: Slot, m: U32)
    requires Congruent(r) && r.start == m && r.slots[r.index] == f
    requires Full(f) && Begins(f) && Ends(f) && f.num == m && |f.data| <= 1492
    requires var g := r.slots[Next(r.index)]; Full(g) ==> g.num == (m + 1) % WORD
    ensures var p := Pump(r, m, true); Leaves(r, m, f.data, p.frames, p.ring.start)
  {
    hide Placed, Begins, Ends, Full, FindFrame, Assemble, Occupied, GoesOn, Alone, Clear;
    BehindStart(r, m);
    RoundKeeps(r, m, true);
    AssembleWhole(r, m);
    var a := Assemble(r, m);
    if Alone(r.slots, m % 512) {
      LastOne(r, m);
      if m + 1 == WORD {
        BarrenSearch(a.ring, 0, m);
        PumpBarren(a.ring, m);
        PumpNothing(a.ring, m);
      }
    }
  }

  lemma LastOne(r: Ring, m: U32)
    requires Shape(r) && r.index == m % 512 && Alone(r.slots, m % 512)
    ensures Barren(Clear(r.slots, r.index)) && !GoesOn(r, m)
  {
    StepsTogether(m);
  }

  lemma PumpNothing(r: Ring, m: U32)
    requires Congruent(r) && Barren(r.slots) && FindFrame(r, r.index, r.start, m) == r
    ensures Pump(r, m, true) == Pumped(r, [])
  {
    hide FindFrame, Occupied, Placed;
  }

  // ---- what is left over beside a fragment ----

  /** A fragment that has its place in the ring arrives, without a break. */
  ghost predicate InPlace(b: Bundle, members: seq<nat>, s: nat, low: nat, data: seq<Byte>) {
    && Arrival(b, members, s, low, data) && !Broken(b.ring, MAfter(b, members, s, low))
    && 0 <= Signed(Expand(b.m, low) - b.ring.start) < 512
  }

  /** Slot `i` holds a fragment other than `x`. */
  predicate Other(r: Ring, i: nat, x: U32)
    requires Shape(r) && i < 512
  {
    Full(r.slots[i]) && r.slots[i].num != x
  }

  /** The fragment has been stored, slot `i` emptied, and that is all. */
  ghost predicate OnlyStored(b: Bundle, f: Slot, i: nat, m: U32, s: nat, r: Received)
    requires Shape(b.ring) && i < 512 && s < |b.last|
  {
    && r.frames == [] && r.bundle.m == m && r.bundle.last == b.last[s := f.num]
    && r.bundle.ring == Cleared(b.ring.(slots := b.ring.slots[f.num % 512 := f]), i)
  }

  /** What stands behind a fragment and is not the next one is left over, and is cleared: if the fragment is the first
      of several that is all that happens; otherwise all goes on as if nothing had stood there. */
  lemma LeftoverBehind(b: Bundle, members: seq<nat>, s: nat, flags: Byte, low: nat, data: seq<Byte>)
    requires InPlace(b, members, s, low, data)
    requires var x := Expand(b.m, low); (x + 1) % 512 != b.ring.index && Other(b.ring, (x + 1) % 512, (x + 1) % WORD)
    ensures var x := Expand(b.m, low); var r := Receive(b, members, s, flags, low, data);
            if BeginBit(flags) && !EndBit(flags)
            then OnlyStored(b, Slot(data, flags, x), (x + 1) % 512, MAfter(b, members, s, low), s, r)
            else
              var b' := b.(ring := Cleared(b.ring, (x + 1) % 512));
              Congruent(b'.ring) && r == Receive(b', members, s, flags, low, data)
  {
    hide Placed, Signed, Expand, MinLast, Insert, Place, Settled, Other, Cleared;
    var x, m := Expand(b.m, low), MAfter(b, members, s, low);
    var f := Slot(data, flags, x);
    SettledInPlace(b.ring, f, m);
    ClearedCongruent(b.ring, (f.num as int + 1) % 512);
    SettledInPlace(Cleared(b.ring, (f.num as int + 1) % 512), f, m) by {
      ClearedStart(b.ring, (f.num as int + 1) % 512, m);
    }
    InsertBehind(b.ring, f, m);
  }

  lemma ClearedStart(r: Ring, i: nat, m: U32)
    requires Shape(r) && i < 512
    ensures Cleared(r, i).start == r.start && Cleared(r, i).index == r.index
    ensures Broken(Cleared(r, i), m) == Broken(r, m)
  {
  }

  lemma SettledInPlace(r: Ring, f: Slot, m: U32)
    requires Congruent(r) && !Broken(r, m) && 0 <= Signed(f.num - r.start) < 512
    ensures Settled(r, f, m) == Insert(r, f.num % 512, f, m)
  {
    hide Placed, Insert, Signed;
    NotMoved(r, m);
    PlaceIs(r, f.num);
  }

  lemma NotMoved(r: Ring, m: U32)
    requires Shape(r) && !Broken(r, m)
    ensures Skip(r, m) == r
  {
  }

  lemma InsertBehind(r: Ring, f: Slot, m: U32)
    requires Congruent(r) && (f.num + 1) % 512 != r.index && Other(r, (f.num + 1) % 512, (f.num + 1) % WORD)
    ensures Congruent(Cleared(r, (f.num + 1) % 512))
    ensures Insert(r, f.num % 512, f, m) ==
            if Begins(f) && !Ends(f)
            then Pumped(Cleared(r.(slots := r.slots[f.num % 512 := f]), (f.num + 1) % 512), [])
            else Insert(Cleared(r, (f.num + 1) % 512), f.num % 512, f, m)
  {
    hide Placed, Pump, Begins, Ends, Full;
    NextIs(f.num);
    var i, next := f.num % 512, Next(f.num % 512);
    ClearedCongruent(r, next);
    InsertedCongruent(r, f);
    InsertedCongruent(Cleared(r, next), f);
    ClearedIsEmpty(r.slots, next);
    assert Clear(r.slots, next)[i := f] == Clear(r.slots[i := f], next);
  }

  /** What stands before a fragment and is not the one before it is cleared in the same way: if the fragment is the
      last of several that is all that happens. */
  lemma LeftoverBefore(b: Bundle, members: seq<nat>, s: nat, flags: Byte, low: nat, data: seq<Byte>)
    requires InPlace(b, members, s, low, data)
    requires var x := Expand(b.m, low);
             && x % 512 != b.ring.index && Other(b.ring, (x - 1) % 512, (x - 1) % WORD)
             && ((x + 1) % 512 != b.ring.index ==> !Other(b.ring, (x + 1) % 512, (x + 1) % WORD))
    ensures var x := Expand(b.m, low); var r := Receive(b, members, s, flags, low, data);
            if EndBit(flags) && !BeginBit(flags)
            then OnlyStored(b, Slot(data, flags, x), (x - 1) % 512, MAfter(b, members, s, low), s, r)
            else
              var b' := b.(ring := Cleared(b.ring, (x - 1) % 512));
              Congruent(b'.ring) && r == Receive(b', members, s, flags, low, data)
  {
    hide Placed, Signed, Expand, MinLast, Insert, Place, Settled, Other, Cleared;
    var x, m := Expand(b.m, low), MAfter(b, members, s, low);
    var f := Slot(data, flags, x);
    SettledInPlace(b.ring, f, m);
    ClearedCongruent(b.ring, (f.num as int - 1) % 512);
    SettledInPlace(Cleared(b.ring, (f.num as int - 1) % 512), f, m) by {
      ClearedStart(b.ring, (f.num as int - 1) % 512, m);
    }
    InsertBefore(b.ring, f, m);
  }

  lemma InsertBefore(r: Ring, f: Slot, m: U32)
    requires Congruent(r) && f.num % 512 != r.index && Other(r, (f.num - 1) % 512, (f.num - 1) % WORD)
    requires (f.num + 1) % 512 != r.index ==> !Other(r, (f.num + 1) % 512, (f.num + 1) % WORD)
    ensures Congruent(Cleared(r, (f.num - 1) % 512))
    ensures Insert(r, f.num % 512, f, m) ==
            if Ends(f) && !Begins(f)
            then Pumped(Cleared(r.(slots := r.slots[f.num % 512 := f]), (f.num - 1) % 512), [])
            else Insert(Cleared(r, (f.num - 1) % 512), f.num % 512, f, m)
  {
    hide Placed, Pump, Begins, Ends, Full;
    NextIs(f.num);
    Sides(f.num);
    var i, prev := f.num % 512, (f.num - 1) % 512;
    ClearedCongruent(r, prev);
    InsertedCongruent(r, f);
    InsertedCongruent(Cleared(r, prev), f);
    ClearedIsEmpty(r.slots, prev);
    assert Clear(r.slots, prev)[i := f] == Clear(r.slots[i := f], prev);
  }

  /** The slots on either side of one are two. */
  lemma Sides(x: nat)
    ensures (x % 512 - 1) % 512 == (x - 1) % 512 && (x - 1) % 512 != x % 512 && (x + 1) % 512 != (x - 1) % 512
  {
    SideOf(x / 512, x % 512);
    assert x == 512 * (x / 512) + x % 512;
  }

  lemma SideOf(q: nat, i: nat)
    requires i < 512
    ensures var x := 512 * q + i;
            (x - 1) % 512 == (if i == 0 then 511 else i - 1) && (x + 1) % 512 == (if i == 511 then 0 else i + 1)
    ensures (i - 1) % 512 == if i == 0 then 511 else i - 1
  {
    if i == 0 {
      SlotAt(q - 1, 511);
      SlotAt(-1, 511);
    } else {
      SlotAt(q, i - 1);
      SlotAt(0, i - 1);
    }
    if i == 511 { SlotAt(q + 1, 0); } else { SlotAt(q, i + 1); }
  }

  lemma SlotAt(q: int, r: nat)
    requires r < 512
    ensures (512 * q + r) % 512 == r
  {
  }

  /** When a frame has left, the slot at the new start holds the next fragment or nothing. */
  lemma NextIsNext(r: Ring, m: U32)
    requires Congruent(r) && Full(r.slots[r.index]) && Begins(r.slots[r.index])
    requires EndFrom(r.slots, r.index, 512).Some?
    ensures var a := Assemble(r, m).ring; Full(a.slots[a.index]) ==> a.slots[a.index].num == a.start
  {
    hide EndFrom, ClearAll, Data, Begins, Placed;
    var e := EndFrom(r.slots, r.index, 512).value;
    ClearedIsEmpty(ClearAll(r.slots, r.index, e), Next(e));
  }

  // ---- the ring reaches M again ----

  /** Everything held is one of the 512 fragments from `s0` on: nothing is left over from before. */
  ghost predicate Fitting(slots: seq<Slot>, s0: U32) {
    |slots| == 512 && forall i :: 0 <= i < 512 && Full(slots[i]) ==> (slots[i].num - s0) % WORD < 512
  }

  /** The start has come at most 512 numbers further than `s0`. */
  ghost predicate Near(r: Ring, s0: U32) {
    && Congruent(r) && Fitting(r.slots, s0) && (r.start - s0) % WORD <= 512
    && ((r.start - s0) % WORD == 512 ==> !Full(r.slots[r.index]))
  }

  lemma ClearFits(slots: seq<Slot>, i: nat, s0: U32)
    requires Fitting(slots, s0) && i < 512
    ensures Fitting(Clear(slots, i), s0)
    ensures forall j :: 0 <= j < 512 && !Full(slots[j]) ==> !Full(Clear(slots, i)[j])
  {
    hide Full;
    ClearedIsEmpty(slots, i);
  }

  lemma {:induction false} FindFrameFits(r: Ring, i: nat, b: U32, m: U32, s0: U32)
    requires Near(r, s0) && i == b % 512
    ensures Near(FindFrame(r, i, b, m), s0)
    decreases Laps(r.slots, b, m)
  {
    hide FindEnd, Laps, Next, Placed, Fitting, Full, Clear;
    if b < m {
      StepOn(r.slots, b, m);
      if !Full(r.slots[i]) {
        FindFrameFits(r, Next(i), b + 1, m, s0);
      } else if r.slots[i].num != b {
        ClearPlaced(r.slots, i);
        ClearFits(r.slots, i, s0);
        FindFrameFits(r.(slots := Clear(r.slots, i)), Next(i), b + 1, m, s0);
      } else if !Begins(r.slots[i]) {
        FindFrameFits(r, Next(i), b + 1, m, s0);
      } else {
        var e := FindEnd(r.slots, i, b, m);
        FindEndWalks(r.slots, b, m);
        SearchOn(r.slots, b, m);
        ClearPlaced(r.slots, e.i);
        ClearFits(r.slots, e.i, s0);
        FitsAt(r.slots, i, s0);
        if !e.found { FindFrameFits(Ring(e.slots, i, b), Next(e.i), (e.b + 1) % WORD, m, s0); }
      }
    }
  }

  lemma FitsAt(slots: seq<Slot>, i: nat, s0: U32)
    requires Fitting(slots, s0) && i < 512 && Full(slots[i])
    ensures (slots[i].num - s0) % WORD < 512
  {
  }

  /** The word after one `d` places from `s0`. */
  lemma OneOn(x: U32, s0: U32)
    requires (x - s0) % WORD < 512
    ensures ((x + 1) % WORD - s0) % WORD == (x - s0) % WORD + 1
  {
  }

  /** The slot at the start holds the fragment with its number. */
  lemma StartHolds(r: Ring, s0: U32)
    requires Near(r, s0) && Full(r.slots[r.index])
    ensures (r.start - s0) % WORD < 512
  {
  }

  lemma {:induction false} ClearAllFits(slots: seq<Slot>, i: nat, e: nat, s0: U32)
    requires |slots| == 512 && Fitting(slots, s0) && i < 512 && e < 512
    ensures Fitting(ClearAll(slots, i, e), s0)
    decreases Ahead(i, e)
  {
    hide Fitting, Full;
    ClearFits(slots, i, s0);
    if i != e { ClearAllFits(Clear(slots, i), Next(i), e, s0); }
  }

  lemma AssembleFits(r: Ring, m: U32, s0: U32)
    requires Near(r, s0)
    ensures var a := Assemble(r, m);
            && Congruent(a.ring) && (a.ring.start - s0) % WORD <= 512
            && (a.next != Stop ==> Near(a.ring, s0))
  {
    hide ClearAll, EndFrom, Data, Placed, Next, Fitting, Clear;
    AssembleCongruent(r, m);
    if Full(r.slots[r.index]) {
      StartHolds(r, s0);
      if !Begins(r.slots[r.index]) {
        OneOn(r.start, s0);
      } else {
        match EndFrom(r.slots, r.index, MAXFRAGNUM)
        case None =>
        case Some(e) =>
          FitsAt(r.slots, e, s0);
          OneOn(r.slots[e].num, s0);
          ClearAllFits(r.slots, r.index, e, s0);
          NextFits(ClearAll(r.slots, r.index, e), Next(e), (r.slots[e].num + 1) % WORD, s0);
      }
    }
  }

  lemma NextFits(slots: seq<Slot>, i: nat, start: U32, s0: U32)
    requires Fitting(slots, s0) && i < 512
    ensures var slots' := if Full(slots[i]) && slots[i].num != start then Clear(slots, i) else slots;
            Fitting(slots', s0) && ((start - s0) % WORD == 512 ==> !Full(slots'[i]))
  {
    ClearFits(slots, i, s0);
  }

  lemma {:induction false} PumpFits(r: Ring, m: U32, find: bool, s0: U32)
    requires Near(r, s0)
    ensures (Pump(r, m, find).ring.start - s0) % WORD <= 512
    decreases Occupied(r.slots)
  {
    hide FindFrame, Assemble, Occupied, Near;
    assert Congruent(r) by { NearIs(r, s0); }
    RoundKeeps(r, m, find);
    if find { NearIs(r, s0); FindFrameFits(r, r.index, r.start, m, s0); }
    var r' := if find then FindFrame(r, r.index, r.start, m) else r;
    AssembleFits(r', m, s0);
    var a := Assemble(r', m);
    if a.next != Stop { PumpFits(a.ring, m, a.next == Find, s0); }
  }

  lemma NearIs(r: Ring, s0: U32)
    requires Near(r, s0)
    ensures Congruent(r)
  {
  }

  lemma InsertFits(r: Ring, f: Slot, m: U32)
    requires Congruent(r) && Fitting(r.slots, r.start) && (f.num - r.start) % WORD < 512
    ensures (Insert(r, f.num % 512, f, m).ring.start - r.start) % WORD <= 512
  {
    hide Placed, Stray, Pump, Fitting, Full, Clear;
    InsertedCongruent(r, f);
    var i := f.num % 512;
    var r0 := r.(slots := r.slots[i := f]);
    InsertedFits(r.slots, i, f, r.start);
    var next, prev := Next(i), (i - 1) % 512;
    ClearedCongruent(r0, next);
    ClearFits(r0.slots, next, r.start);
    var r1 := if next != r.index && Stray(r0, next, (f.num + 1) % WORD) then Cleared(r0, next) else r0;
    ClearedCongruent(r1, prev);
    ClearFits(r1.slots, prev, r.start);
    var r2 := if i != r.index && Stray(r1, prev, (f.num - 1) % WORD) then Cleared(r1, prev) else r1;
    PumpFits(r2, m, true, r.start);
  }

  lemma InsertedFits(slots: seq<Slot>, i: nat, f: Slot, s0: U32)
    requires Fitting(slots, s0) && i < 512 && (f.num - s0) % WORD < 512
    ensures Fitting(slots[i := f], s0)
  {
  }

  /** Where the ring begins once M is known: at M after a break. */
  function Base(r: Ring, m: U32): U32 { if Broken(r, m) then m else r.start }

  lemma SettledFits(r: Ring, f: Slot, m: U32)
    requires Congruent(r) && Fitting(r.slots, Base(r, m))
    ensures (Settled(r, f, m).ring.start - Base(r, m)) % WORD <= 512
  {
    hide Placed, Insert, Fitting, Signed, Broken, Place;
    SkipCongruent(r, m);
    if Broken(r, m) { MovedOn(r, m); } else { NotMoved(r, m); }
    var r0 := Skip(r, m);
    if Place(r0, f.num).Some? {
      PlaceIs(r0, f.num);
      PlaceFits(r0, f.num);
      InsertFits(r0, f, m);
    }
  }

  lemma PlaceFits(r: Ring, x: U32)
    requires Shape(r) && Place(r, x).Some?
    ensures (x - r.start) % WORD < 512
  {
  }

  /** Behind `s0` by no more than 512 the distance to M shrinks. */
  lemma Closer(m: U32, s0: U32, start: U32)
    requires 512 - 0x8000_0000 <= Signed(m - s0) < 512 && (start - s0) % WORD <= 512
    ensures Signed(m - start) < 512
  {
    var d := (start - s0) % WORD;
    InRange(Signed(m - s0) - d);
    SignedShift(m - s0, start - s0);
    assert m - start == (m - s0) - (start - s0);
  }

  lemma InRange(x: int)
    requires -0x8000_0000 <= x < 0x8000_0000
    ensures Signed(x) == x
  {
  }

  lemma SignedShift(x: int, y: int)
    requires y % WORD <= 512
    ensures Signed(x - y) == Signed(Signed(x) - y % WORD)
  {
  }

  /** With nothing left over M is in reach of the ring after every fragment, accepted or dropped. */
  lemma InReachAfterwards(b: Bundle, members: seq<nat>, s: nat, flags: Byte, low: nat, data: seq<Byte>)
    requires Arrival(b, members, s, low, data)
    requires var m := MAfter(b, members, s, low);
             Fitting(b.ring.slots, Base(b.ring, m)) && 512 - 0x8000_0000 <= Signed(m - Base(b.ring, m))
    ensures var r := Receive(b, members, s, flags, low, data).bundle;
            Signed(r.m - r.ring.start) < 512 && (r.ring.start - Base(b.ring, r.m)) % WORD <= 512
  {
    hide Placed, Signed, Expand, MinLast, Insert, Place, Settled, Fitting, Broken;
    var m := MAfter(b, members, s, low);
    var f := Slot(data, flags, Expand(b.m, low));
    SettledFits(b.ring, f, m);
    BaseInReach(b.ring, m);
    Closer(m, Base(b.ring, m), Settled(b.ring, f, m).ring.start);
  }

  lemma BaseInReach(r: Ring, m: U32)
    ensures Signed(m - Base(r, m)) < 512
  {
  }

  // ---- what is left over can pull the start back ----

  /** Slot 488 still holds the frame 488, and the ring begins at 600. */
  function Leftover(): (r: Ring)
    ensures Congruent(r) && r.start == 600 && |r.slots| == 512
    ensures forall i :: 0 <= i < 512 ==> Full(r.slots[i]) == (i == 488)
    ensures r.slots[488] == Slot([9], 0xc0, 488)
  {
    Ring(seq(512, i => if i == 488 then Slot([9], 0xc0, 488) else Slot([], 0, 0)), 88, 600)
  }

  /** The state is allowed, link 0 is at 1512, and the whole frame 1514 arrives on link 1: M becomes 1512 and the ring
      is to begin there. But slot 488 holds what was left over: the old frame leaves, the start falls back to 489, and
      the new frame is cleared. M is out of reach again. */
  lemma LeftoverPullsBack()
    ensures var b := Bundle(Leftover(), 600, [1512, 600]);
            var r := Receive(b, [0, 1], 1, 0xc0, 1514, [1]);
            && Arrival(b, [0, 1], 1, 1514, [1]) && MAfter(b, [0, 1], 1, 1514) == 1512
            && r.frames == [[9]] && r.bundle.m == 1512 && r.bundle.ring.start == 489
            && Barren(r.bundle.ring.slots) && Signed(r.bundle.m - r.bundle.ring.start) == 1023
  {
    hide Settled;
    var b := Bundle(Leftover(), 600, [1512, 600]);
    assert Expand(600, 1514) == 1514;
    assert b.last[1 := 1514] == [1512, 1514];
    assert MinLast([1512, 1514], [0]) == 1512;
    assert [0, 1][..1] == [0];
    LeftoverSettles();
  }

  lemma LeftoverSettles()
    ensures var p := Settled(Leftover(), Slot([1], 0xc0, 1514), 1512);
            p.frames == [[9]] && p.ring.start == 489 && Barren(p.ring.slots)
  {
    hide Insert, Leftover;
    var r := Leftover();
    MovedOn(r, 1512);
    var r0 := StartedAt(r, 1512);
    var f := Slot([1], 0xc0, 1514);
    assert Place(r0, 1514) == Some(490);
    InsertPlain(r0, f, 1512) by { InsertedCongruent(r0, f); }
    LeftoverPumps(r0.(slots := r0.slots[490 := f]));
  }

  lemma LeftoverPumps(r: Ring)
    requires Congruent(r) && r.index == 488 && r.start == 1512
    requires r.slots[488] == Slot([9], 0xc0, 488) && r.slots[490] == Slot([1], 0xc0, 1514)
    requires forall i :: 0 <= i < 512 ==> Full(r.slots[i]) == (i == 488 || i == 490)
    ensures var p := Pump(r, 1512, true); p.frames == [[9]] && p.ring.start == 489 && Barren(p.ring.slots)
  {
    hide FindFrame, Assemble, Occupied, Placed;
    BehindStart(r, 1512);
    RoundKeeps(r, 1512, true);
    LeftoverLeaves(r);
    var r1 := Assemble(r, 1512).ring;
    NewIsCleared(r1);
    PumpSearched(r1, 1512);
    var r2 := FindFrame(r1, 489, 489, 1512);
    assert Assemble(r2, 1512) == Assembly(r2, [], Stop) by { NothingThere(r2, 1512); }
  }

  lemma NothingThere(r: Ring, m: nat)
    requires Shape(r) && Barren(r.slots)
    ensures Assemble(r, m) == Assembly(r, [], Stop)
  {
  }

  lemma LeftoverLeaves(r: Ring)
    requires Congruent(r) && r.index == 488 && r.start == 1512
    requires r.slots[488] == Slot([9], 0xc0, 488) && r.slots[490] == Slot([1], 0xc0, 1514)
    requires forall i :: 0 <= i < 512 ==> Full(r.slots[i]) == (i == 488 || i == 490)
    ensures Assemble(r, 1512) == Assembly(Ring(Clear(r.slots, 488), 489, 489), [[9]], Find)
  {
    assert EndFrom(r.slots, 488, MAXFRAGNUM) == Some(488);
  }

  lemma NewIsCleared(r: Ring)
    requires Congruent(r) && r.index == 489 && r.start == 489 && r.slots[490].num == 1514
    requires forall i :: 0 <= i < 512 ==> Full(r.slots[i]) == (i == 490)
    ensures FindFrame(r, 489, 489, 1512) == r.(slots := Clear(r.slots, 490)) && Barren(Clear(r.slots, 490))
  {
    hide Laps, FindEnd;
    StepOn(r.slots, 489, 1512);
    StepOn(r.slots, 490, 1512);
    BarrenSearch(r.(slots := Clear(r.slots, 490)), 491, 1512);
    assert FindFrame(r, 490, 490, 1512) == FindFrame(r.(slots := Clear(r.slots, 490)), 491, 491, 1512);
  }
}
