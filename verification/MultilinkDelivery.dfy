/** What a run delivers, by counting bytes: no step of the reassembly makes any, and a run in which M passes
    something that is missing wastes some. So everything is delivered if and only if that never happens. */
module MultilinkDelivery {
  import opened Common
  import opened Multilink
  import opened MultilinkRun

  // ---- no step makes bytes ----

  /** The bytes the ring holds. */
  function Load(slots: seq<Slot>): nat {
    if slots == [] then 0 else Load(slots[..|slots| - 1]) + |slots[|slots| - 1].data|
  }

  function Bytes(frames: seq<seq<Byte>>): nat {
    if frames == [] then 0 else |frames[0]| + Bytes(frames[1..])
  }

  lemma {:induction false} BytesJoin(a: seq<seq<Byte>>, b: seq<seq<Byte>>)
    ensures Bytes(a + b) == Bytes(a) + Bytes(b)
    decreases |a|
  {
    if a == [] {
      assert a + b == b;
    } else {
      BytesJoin(a[1..], b);
      assert (a + b)[1..] == a[1..] + b;
    }
  }

  lemma {:induction false} StoreLoad(slots: seq<Slot>, i: nat, f: Slot)
    requires i < |slots|
    ensures Load(slots[i := f]) + |slots[i].data| == Load(slots) + |f.data|
    decreases |slots|
  {
    var n := |slots| - 1;
    if i < n {
      StoreLoad(slots[..n], i, f);
      assert slots[i := f][..n] == slots[..n][i := f];
    } else {
      assert slots[i := f][..n] == slots[..n];
    }
  }

  lemma ClearLoad(slots: seq<Slot>, i: nat)
    requires i < |slots|
    ensures Load(Clear(slots, i)) + |slots[i].data| == Load(slots)
  {
    StoreLoad(slots, i, slots[i].(data := [], flags := 0));
  }

  lemma {:induction false} FindEndLoad(slots: seq<Slot>, i: nat, b: nat, m: nat)
    requires |slots| == MAXFRAGNUM && i < MAXFRAGNUM
    ensures Load(FindEnd(slots, i, b, m).slots) <= Load(slots)
    decreases m - b
  {
    hide Load;
    if b >= m || !Full(slots[i]) {
    } else if slots[i].num != b {
      ClearLoad(slots, i);
    } else if !Ends(slots[i]) {
      FindEndLoad(slots, Next(i), b + 1, m);
    }
  }

  lemma {:induction false} FindFrameLoad(r: Ring, i: nat, b: U32, m: U32)
    requires Shape(r) && i == b % MAXFRAGNUM
    ensures Load(FindFrame(r, i, b, m).slots) <= Load(r.slots)
    decreases Laps(r.slots, b, m)
  {
    hide Load, FindEnd, Laps, Full;
    if b < m {
      StepOn(r.slots, b, m);
      if !Full(r.slots[i]) {
        FindFrameLoad(r, Next(i), b + 1, m);
      } else if r.slots[i].num != b {
        ClearLoad(r.slots, i);
        FindFrameLoad(r.(slots := Clear(r.slots, i)), Next(i), b + 1, m);
      } else if !Begins(r.slots[i]) {
        FindFrameLoad(r, Next(i), b + 1, m);
      } else {
        FindEndLoad(r.slots, i, b, m);
        SearchOn(r.slots, b, m);
        var e := FindEnd(r.slots, i, b, m);
        if !e.found { FindFrameLoad(Ring(e.slots, i, b), Next(e.i), (e.b + 1) % WORD, m); }
      }
    }
  }

  /** What is read on the way to `e` does not depend on a slot beyond it. */
  lemma {:induction false} DataSkips(slots: seq<Slot>, i: nat, e: nat, j: nat)
    requires |slots| == MAXFRAGNUM && i < MAXFRAGNUM && e < MAXFRAGNUM && j < MAXFRAGNUM && Ahead(i, j) > Ahead(i, e)
    ensures Data(Clear(slots, j), i, e) == Data(slots, i, e)
    decreases Ahead(i, e)
  {
    if i != e { DataSkips(slots, Next(i), e, j); }
  }

  /** Emptying a frame's slots takes exactly its bytes. */
  lemma {:induction false} ClearAllLoad(slots: seq<Slot>, i: nat, e: nat)
    requires |slots| == MAXFRAGNUM && i < MAXFRAGNUM && e < MAXFRAGNUM
    ensures Load(ClearAll(slots, i, e)) + |Data(slots, i, e)| == Load(slots)
    decreases Ahead(i, e)
  {
    hide Load;
    ClearLoad(slots, i);
    if i != e {
      DataSkips(slots, Next(i), e, i);
      ClearAllLoad(Clear(slots, i), Next(i), e);
    }
  }

  lemma AssembleLoad(r: Ring, m: nat)
    requires Shape(r)
    ensures Load(Assemble(r, m).ring.slots) + Bytes(Assemble(r, m).frames) <= Load(r.slots)
  {
    hide Load, ClearAll, EndFrom, Data;
    if Full(r.slots[r.index]) && Begins(r.slots[r.index]) {
      match EndFrom(r.slots, r.index, MAXFRAGNUM)
      case None =>
      case Some(e) =>
        var frame := Data(r.slots, r.index, e);
        ClearAllLoad(r.slots, r.index, e);
        ClearLoad(ClearAll(r.slots, r.index, e), Next(e));
        assert Bytes([frame]) == |frame|;
    }
  }

  lemma {:induction false} PumpLoad(r: Ring, m: U32, find: bool)
    requires Congruent(r)
    ensures Load(Pump(r, m, find).ring.slots) + Bytes(Pump(r, m, find).frames) <= Load(r.slots)
    decreases Occupied(r.slots)
  {
    hide Load, Bytes, FindFrame, Assemble, Occupied, Placed;
    RoundKeeps(r, m, find);
    if find { FindFrameLoad(r, r.index, r.start, m); }
    var r' := if find then FindFrame(r, r.index, r.start, m) else r;
    AssembleLoad(r', m);
    var a := Assemble(r', m);
    if a.next != Stop {
      PumpLoad(a.ring, m, a.next == Find);
      BytesJoin(a.frames, Pump(a.ring, m, a.next == Find).frames);
    }
  }

  lemma InsertLoad(r: Ring, i: nat, f: Slot, m: U32)
    requires Congruent(r) && i == f.num % MAXFRAGNUM
    ensures Load(Insert(r, i, f, m).ring.slots) + Bytes(Insert(r, i, f, m).frames) <= Load(r.slots) + |f.data|
  {
    hide Load, Placed, Stray, Pump;
    StoreLoad(r.slots, i, f);
    InsertedCongruent(r, f);
    var r0 := r.(slots := r.slots[i := f]);
    var next, prev := Next(i), (i - 1) % MAXFRAGNUM;
    ClearLoad(r0.slots, next);
    ClearedCongruent(r0, next);
    var r1 := if next != r.index && Stray(r0, next, (f.num + 1) % WORD) then Cleared(r0, next) else r0;
    ClearLoad(r1.slots, prev);
    ClearedCongruent(r1, prev);
    var r2 := if i != r.index && Stray(r1, prev, (f.num - 1) % WORD) then Cleared(r1, prev) else r1;
    PumpLoad(r2, m, true);
  }

  /** Whatever arrives, and in whatever state: what is delivered and what the ring then holds is no more than
      what it held and what has come. */
  lemma ReceiveConserves(b: Bundle, members: seq<nat>, s: nat, flags: Byte, low: nat, data: seq<Byte>)
    requires Congruent(b.ring) && s in members && Linked(members, b.last) && low < MAX_SEQ
    ensures var r := Receive(b, members, s, flags, low, data);
            Load(r.bundle.ring.slots) + Bytes(r.frames) <= Load(b.ring.slots) + |data|
  {
    hide Load, Placed, Insert, Skip, Place, Expand, NewM;
    if 4 + |data| <= MAXFRAGLEN {
      var x := Expand(b.m, low);
      var m := NewM(b.m, x, b.last[s := x], members);
      SkipCongruent(b.ring, m);
      var r0 := Skip(b.ring, m);
      assert r0.slots == b.ring.slots by { SkipSlots(b.ring, m); }
      if Place(r0, x).Some? {
        PlaceIs(r0, x);
        InsertLoad(r0, Place(r0, x).value, Slot(data, flags, x), m);
      }
    }
  }

  lemma SkipSlots(r: Ring, m: U32)
    requires Shape(r)
    ensures Skip(r, m).slots == r.slots
  {
  }

  /** The bytes of a run of fragments. */
  function Sum(s: seq<Slot>, qs: seq<nat>): nat
    requires Inside(qs, s)
    decreases |qs|
  {
    if qs == [] then 0 else |s[qs[0]].data| + Sum(s, qs[1..])
  }

  lemma {:induction false} RunConserves(b: Bundle, members: seq<nat>, s: seq<Slot>, link: seq<nat>, qs: seq<nat>)
    requires Ready(b, members) && Routed(s, link, members) && Inside(qs, s)
    ensures var r := After(b, members, s, link, qs);
            Load(r.bundle.ring.slots) + Bytes(r.frames) <= Load(b.ring.slots) + Sum(s, qs)
    decreases |qs|
  {
    hide Load, Bytes, Receive, Placed;
    if qs == [] {
      assert Bytes([]) == 0 by { NoBytes(); }
    } else {
      var q := qs[0];
      ReceiveConserves(b, members, link[q], s[q].flags, q % MAX_SEQ, s[q].data);
      var r := Take(b, members, s, link, q);
      RunConserves(r.bundle, members, s, link, qs[1..]);
      BytesJoin(r.frames, After(r.bundle, members, s, link, qs[1..]).frames);
    }
  }

  lemma NoBytes()
    ensures Bytes([]) == 0
  {
  }

  /** More bytes are gone than delivered or held. */
  ghost predicate Wastes(b: Bundle, members: seq<nat>, s: seq<Slot>, link: seq<nat>, qs: seq<nat>)
    requires Ready(b, members) && Routed(s, link, members) && Inside(qs, s)
  {
    var r := After(b, members, s, link, qs);
    Load(r.bundle.ring.slots) + Bytes(r.frames) < Load(b.ring.slots) + Sum(s, qs)
  }

  /** What is wasted at an arrival, or later, stays wasted. */
  lemma WasteStays(b: Bundle, members: seq<nat>, s: seq<Slot>, link: seq<nat>, qs: seq<nat>)
    requires Ready(b, members) && Routed(s, link, members) && Inside(qs, s) && qs != []
    requires var r := Take(b, members, s, link, qs[0]);
             || Load(r.bundle.ring.slots) + Bytes(r.frames) < Load(b.ring.slots) + |s[qs[0]].data|
             || Wastes(r.bundle, members, s, link, qs[1..])
    ensures Wastes(b, members, s, link, qs)
  {
    hide Load, Bytes, Receive, Placed;
    var q := qs[0];
    ReceiveConserves(b, members, link[q], s[q].flags, q % MAX_SEQ, s[q].data);
    var r := Take(b, members, s, link, q);
    RunConserves(r.bundle, members, s, link, qs[1..]);
    BytesJoin(r.frames, After(r.bundle, members, s, link, qs[1..]).frames);
  }

  // ---- a start that is past what is missing ----

  /** Since M has overtaken the frame at `c`, the start is past its fragment `z`, which has not come yet. */
  ghost predicate Astray(r: Ring, c: nat, z: nat, t: nat, s: seq<Slot>, got: set<nat>) {
    && Past(r, c, z, t, s, got) && Lacks(s, got, c, z) && c % WORD + 0x400 < WORD && Bound(s, got, 0) == c
    && (forall x :: 0 <= x < c ==> x in got) && (forall x :: x in got ==> x < c + MAXFRAGNUM)
    && exists x :: x in got && x / WORD == c / WORD
  }

  lemma AstrayParts(r: Ring, c: nat, z: nat, t: nat, s: seq<Slot>, got: set<nat>)
    requires Astray(r, c, z, t, s, got)
    ensures Congruent(r) && Past(r, c, z, t, s, got) && Lacks(s, got, c, z) && c % WORD + 0x400 < WORD
    ensures Bound(s, got, 0) == c
    ensures c <= z < t <= c + MAXFRAGNUM && r.start == t % WORD && z !in got
    ensures (forall x :: 0 <= x < c ==> x in got) && forall x :: x in got ==> x < c + MAXFRAGNUM
  {
    hide Placed, Matches, Bound;
  }

  /** M stays in the round of the frame that it has overtaken, and not far from it. */
  lemma LeadStays(c: nat, top: seq<nat>, members: seq<nat>, got: set<nat>, lead: nat)
    requires Members(members, |top|) && Near(top, members, got) && lead == Lead(top, members) && Newest(got, lead)
    requires c % WORD + 0x400 < WORD && (exists x :: x in got && x / WORD == c / WORD)
    requires (forall x :: 0 <= x < c ==> x in got) && forall x :: x in got ==> x < c + MAXFRAGNUM
    ensures lead < c + MAXFRAGNUM && c <= lead + MAX_SEQ && c / WORD == lead / WORD
  {
    hide Lead;
    var j :| 0 <= j < |members| && top[members[j]] == Lead(top, members);
    if c > 0 { assert c - 1 in got; }
    if c < lead { FarFromWrap(c, lead); } else { NotEarlier(lead, c); }
  }

  lemma MatchesMore(slots: seq<Slot>, b: nat, s: seq<Slot>, got: set<nat>, q: nat)
    requires Matches(slots, b, s, got) && b <= q < b + MAXFRAGNUM && q < |s|
    ensures Matches(slots, b, s, got + {q}) && Matches(slots[q % MAXFRAGNUM := s[q]], b, s, got + {q})
  {
    hide Reach, Full;
    ReachOf(b, q);
  }

  /** A fragment that still has a place does not bring the start back. */
  lemma InsertPast(r: Ring, c: nat, z: nat, t: nat, s: seq<Slot>, got: set<nat>, q: nat, lead: nat) returns (t': nat)
    requires Stream(s) && Past(r, c, z, t, s, got) && Lacks(s, got + {q}, c, z) && c <= q < c + MAXFRAGNUM && q < |s|
    requires lead < c + MAXFRAGNUM && c / WORD == lead / WORD && c % WORD + 0x400 < WORD
    ensures Congruent(r) && q % MAXFRAGNUM == s[q].num % MAXFRAGNUM
    ensures Past(Insert(r, q % MAXFRAGNUM, s[q], lead % WORD).ring, c, z, t', s, got + {q})
  {
    hide Placed, Matches, Stray, Pump, Stream, Lacks, Begins, Ends;
    var got', m, i, f := got + {q}, lead % WORD, q % MAXFRAGNUM, s[q];
    NumIs(s, q);
    WordIndex(q);
    MatchesMore(r.slots, c, s, got, q);
    InsertedCongruent(r, f);
    var r0 := r.(slots := r.slots[i := f]);
    var next, prev := Next(i), (i - 1) % MAXFRAGNUM;
    ClearedCongruent(r0, next);
    ClearMatches(r0.slots, c, s, got', next);
    var after := next != r.index && Stray(r0, next, (f.num + 1) % WORD);
    var r1 := if after then Cleared(r0, next) else r0;
    ClearedCongruent(r1, prev);
    ClearMatches(r1.slots, c, s, got', prev);
    var before := i != r.index && Stray(r1, prev, (f.num - 1) % WORD);
    var r2 := if before then Cleared(r1, prev) else r1;
    t' := t;
    if !(after && Begins(f) && !Ends(f)) && !(before && Ends(f) && !Begins(f)) {
      t' := PumpAhead(r2, c, z, t, s, got', lead, true);
    }
  }

  /** Where a fragment goes then: before the start it has no place. */
  lemma PlacePast(r: Ring, t: nat, c: nat, q: nat, lead: nat)
    requires Congruent(r) && r.start == t % WORD && c < t <= c + MAXFRAGNUM && c <= q < c + MAXFRAGNUM
    requires lead < c + MAXFRAGNUM && c <= lead + MAX_SEQ
    ensures Skip(r, lead % WORD) == r
    ensures if q < t then Place(r, q % WORD) == None else Place(r, q % WORD) == Some(q % MAXFRAGNUM)
  {
    hide Placed, Signed;
    SignedIs(lead, t);
    SignedIs(q, t);
    if q >= t {
      PlaceIs(r, q % WORD);
      WordIndex(q);
    }
  }

  lemma SettledPast(r: Ring, f: Slot, m: U32)
    requires Congruent(r) && Skip(r, m) == r
    ensures Place(r, f.num) == None ==> Settled(r, f, m) == Pumped(r, [])
    ensures Place(r, f.num) == Some(f.num % MAXFRAGNUM) ==> Settled(r, f, m) == Insert(r, f.num % MAXFRAGNUM, f, m)
  {
    hide Placed, Insert, Skip, Place;
  }

  lemma LacksStill(s: seq<Slot>, got: set<nat>, c: nat, z: nat, q: nat)
    requires Lacks(s, got, c, z) && q != z && Bound(s, got, 0) == c
    ensures Lacks(s, got + {q}, c, z) && Bound(s, got + {q}, 0) == c
  {
    hide Bound, Complete, Ends;
    FramesGrow(s, got, got + {q}, 0);
    LackingIsIncomplete(s, got + {q}, c, z);
    BoundHere(s, got + {q}, c);
  }

  lemma BoundHere(s: seq<Slot>, got: set<nat>, c: nat)
    requires !Complete(s, got, c)
    ensures Bound(s, got, c) == c
  {
  }

  lemma {:induction false} AllBelowBound(s: seq<Slot>, got: set<nat>, b: nat)
    ensures forall x :: b <= x < Bound(s, got, b) ==> x in got
    decreases |s| - b
  {
    hide LastOf;
    if Complete(s, got, b) { AllBelowBound(s, got, LastOf(s, b).value + 1); }
  }

  /** An arrival that is not what is missing leaves things as they are. */
  lemma AstrayStep(b: Bundle, top: seq<nat>, members: seq<nat>, s: seq<Slot>, link: seq<nat>, got: set<nat>, q: nat,
                   c: nat, z: nat, t: nat) returns (t': nat)
    requires Stream(s) && Routed(s, link, members) && Abreast(b, top, members, link, got)
    requires Arrives(top, members, s, link, got, q) && Astray(b.ring, c, z, t, s, got) && q != z
    ensures Ready(b, members) && q < |s| && link[q] < |top|
    ensures var r := Take(b, members, s, link, q);
            && Abreast(r.bundle, top[link[q] := q], members, link, got + {q})
            && Astray(r.bundle.ring, c, z, t', s, got + {q})
  {
    hide Placed, Matches, Stream, Settled, Insert, Skip, Place, Receive, Bound, Lead, Latest, InOrder, Near, Words,
         Newest, Past, Lacks;
    AstrayParts(b.ring, c, z, t, s, got);
    ReceiveSettles(b, top, members, s, link, got, q);
    var top' := top[link[q] := q];
    var lead := Lead(top', members);
    LacksStill(s, got, c, z, q);
    LeadStays(c, top', members, got + {q}, lead);
    NumIs(s, q);
    PlacePast(b.ring, t, c, q, lead);
    SettledPast(b.ring, s[q], lead % WORD);
    t' := t;
    PastMore(b.ring, c, z, t, s, got, q);
    if q >= t { t' := InsertPast(b.ring, c, z, t, s, got, q, lead); }
  }

  lemma PastMore(r: Ring, c: nat, z: nat, t: nat, s: seq<Slot>, got: set<nat>, q: nat)
    requires Past(r, c, z, t, s, got) && c <= q < c + MAXFRAGNUM && q < |s|
    ensures Past(r, c, z, t, s, got + {q})
  {
    hide Matches, Placed;
    MatchesMore(r.slots, c, s, got, q);
  }

  /** What is missing comes too late and is lost. */
  lemma MissingIsLost(b: Bundle, top: seq<nat>, members: seq<nat>, s: seq<Slot>, link: seq<nat>, got: set<nat>,
                      c: nat, z: nat, t: nat)
    requires Stream(s) && Routed(s, link, members) && Abreast(b, top, members, link, got)
    requires Arrives(top, members, s, link, got, z) && Astray(b.ring, c, z, t, s, got)
    ensures Ready(b, members) && z < |s| && Full(s[z])
    ensures var r := Take(b, members, s, link, z); r.frames == [] && r.bundle.ring == b.ring
  {
    hide Placed, Matches, Settled, Insert, Skip, Place, Receive, Bound, Lead, Latest, InOrder, Near, Words, Newest,
         Past, Lacks;
    AstrayParts(b.ring, c, z, t, s, got);
    ReceiveSettles(b, top, members, s, link, got, z);
    var lead := Lead(top[link[z] := z], members);
    LeadStays(c, top[link[z] := z], members, got + {z}, lead);
    PlacePast(b.ring, t, c, z, lead);
    SettledPast(b.ring, s[z], lead % WORD);
  }

  /** Once the start is past what is missing, the run wastes bytes. */
  lemma {:induction false} AstrayWastes(b: Bundle, top: seq<nat>, members: seq<nat>, s: seq<Slot>, link: seq<nat>,
      got: set<nat>, qs: seq<nat>, c: nat, z: nat, t: nat)
    requires Stream(s) && Routed(s, link, members) && Abreast(b, top, members, link, got)
    requires Astray(b.ring, c, z, t, s, got) && Arriving(top, members, s, link, got, qs) && z in qs
    ensures Ready(b, members) && Inside(qs, s) && Wastes(b, members, s, link, qs)
    decreases |qs|
  {
    hide Astray, Abreast, Arrives, Arriving, Routed, Stream, Ready, Take, Wastes, Full;
    ArrivingInside(top, members, s, link, got, qs);
    ArrivingOn(top, members, s, link, got, qs);
    var q := qs[0];
    if q == z {
      MissingIsLost(b, top, members, s, link, got, c, z, t);
      assert |s[z].data| > 0 by { FullIs(s[z]); }
    } else {
      var t' := AstrayStep(b, top, members, s, link, got, q, c, z, t);
      var r := Take(b, members, s, link, q);
      AstrayWastes(r.bundle, top[link[q] := q], members, s, link, got + {q}, qs[1..], c, z, t');
    }
    WasteStays(b, members, s, link, qs);
  }

  lemma FullIs(f: Slot)
    requires Full(f)
    ensures |f.data| > 0
  {
  }

  /** The arrival at which M overtakes the first incomplete frame. */
  lemma OvertakenStep(b: Bundle, top: seq<nat>, members: seq<nat>, s: seq<Slot>, link: seq<nat>, got: set<nat>, q: nat)
    returns (z: nat, t: nat)
    requires Stream(s) && Routed(s, link, members) && Inv(b, top, members, s, link, got)
    requires Arrives(top, members, s, link, got, q) && link[q] < |top|
    requires var lead := Lead(top[link[q] := q], members);
             !Stranded(s, lead) && Overtaken(s, got + {q}, Bound(s, got + {q}, 0), lead)
    ensures Ready(b, members) && q < |s|
    ensures var r, c := Take(b, members, s, link, q), Bound(s, got + {q}, 0);
            && Abreast(r.bundle, top[link[q] := q], members, link, got + {q})
            && Astray(r.bundle.ring, c, z, t, s, got + {q}) && z < |s| && z !in got + {q}
  {
    hide Window, Latest, Near, InOrder, Receive, Pump, Bound, Stream, Lead, Placed, Words, Frames, Past, Matches;
    ReceiveIs(b, top, members, s, link, got, q);
    var c, got' := Bound(s, got, 0), got + {q};
    var top', r0 := top[link[q] := q], b.ring.(slots := b.ring.slots[q % MAXFRAGNUM := s[q]]);
    var lead := Lead(top', members);
    FramesGrow(s, got, got', 0);
    AllInStream(r0, c, s, got');
    AbreastParts(Take(b, members, s, link, q).bundle, top', members, link, got');
    OvertakenIsSmall(top', members, s, link, got');
    z, t := PumpAstray(r0, c, s, got', lead, true);
    AllBelowBound(s, got', 0);
    WithinReach(r0, c, s, got');
    assert lead in got' && lead / WORD == Bound(s, got', 0) / WORD;
  }

  lemma AbreastParts(b: Bundle, top: seq<nat>, members: seq<nat>, link: seq<nat>, got: set<nat>)
    requires Abreast(b, top, members, link, got)
    ensures InOrder(link, got) && Latest(top, members, link, got) && Members(members, |top|) && Near(top, members, got)
  {
  }

  lemma WithinReach(r: Ring, b: nat, s: seq<Slot>, got: set<nat>)
    requires Window(r, b, s, got)
    ensures forall x :: x in got ==> x < b + MAXFRAGNUM
  {
  }

  // ---- M at the largest word ----

  lemma BarrenLoad(slots: seq<Slot>)
    requires Barren(slots)
    ensures Load(slots) == 0
    decreases |slots|
  {
    if slots != [] {
      assert !Full(slots[|slots| - 1]);
      BarrenLoad(slots[..|slots| - 1]);
    }
  }

  /** When M is the largest word in the middle of a frame, what has come of that frame is wasted. */
  lemma {:induction false} StrandedPumpWastes(r: Ring, b: nat, s: seq<Slot>, got: set<nat>, lead: nat)
    requires Stream(s) && Window(r, b, s, got) && Newest(got, lead) && b < lead < b + MAXFRAGNUM
    requires b / WORD == lead / WORD
    requires Stranded(s, lead) && forall q :: 0 <= q <= lead ==> q in got
    ensures Congruent(r)
    ensures var p := Pump(r, WORD - 1, true); Load(p.ring.slots) + Bytes(p.frames) < Load(r.slots)
    decreases lead - b
  {
    hide Window, Stream, Complete, LastOf, Whole, Assemble, FindFrame, Occupied, Placed, Begins, Ends, Load, Bytes,
         Full;
    WindowCongruent(r, b, s, got);
    FromBegin(r, b, s, got, lead);
    GapMeans(s, got, b, lead);
    RoundKeeps(r, WORD - 1, true);
    var y := Gap(s, got, b, lead);
    if y < lead {
      InStream(r, b, s, got, y);
      AssembleWindow(r, b, s, got, WORD - 1);
      AssembleLoad(r, WORD - 1);
      Between(b, y, lead);
      BeginsAt(s, y + 1);
      var a := Assemble(r, WORD - 1);
      StrandedPumpWastes(a.ring, y + 1, s, got, lead);
      BytesJoin(a.frames, Pump(a.ring, WORD - 1, true).frames);
    } else {
      StrandedSearch(r, b, s, got, lead);
      PumpSearched(r, WORD - 1);
      var r' := FindFrame(r, r.index, r.start, WORD - 1);
      PumpLoad(r', WORD - 1, false);
      BarrenLoad(r'.slots);
      WindowShape(r, b, s, got);
      SlotOf(r, b, s, got, b);
      ClearLoad(r.slots, b % MAXFRAGNUM);
      FullIs(r.slots[b % MAXFRAGNUM]);
    }
  }

  lemma StrandedStepWastes(b: Bundle, top: seq<nat>, members: seq<nat>, s: seq<Slot>, link: seq<nat>, got: set<nat>,
      q: nat)
    requires Stream(s) && Routed(s, link, members) && Inv(b, top, members, s, link, got)
    requires Arrives(top, members, s, link, got, q) && link[q] < |top| && Stranded(s, Lead(top[link[q] := q], members))
    ensures Ready(b, members) && q < |s|
    ensures var r := Take(b, members, s, link, q);
            Load(r.bundle.ring.slots) + Bytes(r.frames) < Load(b.ring.slots) + |s[q].data|
  {
    hide Window, Latest, Near, InOrder, Receive, Pump, Bound, Stream, Lead, Placed, Words, Frames, Load, Bytes, Newest,
         Stranded;
    ReceiveIs(b, top, members, s, link, got, q);
    var c, got' := Bound(s, got, 0), got + {q};
    var top', r0 := top[link[q] := q], b.ring.(slots := b.ring.slots[q % MAXFRAGNUM := s[q]]);
    var lead := Lead(top', members);
    AbreastParts(Take(b, members, s, link, q).bundle, top', members, link, got');
    StrandedBehind(r0, c, top', members, s, link, got', lead, q);
    StrandedPumpWastes(r0, c, s, got', lead);
    StoreLoad(b.ring.slots, q % MAXFRAGNUM, s[q]);
  }

  // ---- whole runs ----

  /** A run in which M passes something that is missing, and in which everything comes in the end, wastes bytes. */
  lemma {:induction false} UneasyWastes(b: Bundle, top: seq<nat>, members: seq<nat>, s: seq<Slot>, link: seq<nat>,
      got: set<nat>, qs: seq<nat>)
    requires Stream(s) && Routed(s, link, members) && Inv(b, top, members, s, link, got)
    requires Arriving(top, members, s, link, got, qs) && !CalmRun(top, members, s, link, got, qs)
    requires forall q :: 0 <= q < |s| ==> q in got || q in qs
    ensures Ready(b, members) && Inside(qs, s) && Wastes(b, members, s, link, qs)
    decreases |qs|
  {
    hide Inv, Abreast, Arriving, CalmRun, Arrives, Routed, Stream, Ready, Take, Wastes, Frames, Load, Bytes, Lead,
         Astray, Stranded, Overtaken, Bound;
    InvReady(b, top, members, s, link, got);
    ArrivingInside(top, members, s, link, got, qs);
    SomethingComes(top, members, s, link, got, qs);
    ArrivingOn(top, members, s, link, got, qs);
    CalmOn(top, members, s, link, got, qs);
    var q := qs[0];
    var top', got' := top[link[q] := q], got + {q};
    assert forall x :: 0 <= x < |s| ==> x in got' || x in qs[1..] by { RestComes(s, got, qs); }
    ReceiveIff(b, top, members, s, link, got, q);
    var b' := Take(b, members, s, link, q).bundle;
    if Calm(s, got', Lead(top', members)) {
      UneasyWastes(b', top', members, s, link, got', qs[1..]);
    } else if Stranded(s, Lead(top', members)) {
      StrandedStepWastes(b, top, members, s, link, got, q);
    } else {
      var z, t := OvertakenStep(b, top, members, s, link, got, q);
      AstrayWastes(b', top', members, s, link, got', qs[1..], Bound(s, got', 0), z, t);
    }
    WasteStays(b, members, s, link, qs);
  }

  lemma SomethingComes(top: seq<nat>, members: seq<nat>, s: seq<Slot>, link: seq<nat>, got: set<nat>, qs: seq<nat>)
    requires Arriving(top, members, s, link, got, qs) && !CalmRun(top, members, s, link, got, qs)
    ensures qs != []
  {
  }

  lemma RestComes(s: seq<Slot>, got: set<nat>, qs: seq<nat>)
    requires qs != [] && forall x :: 0 <= x < |s| ==> x in got || x in qs
    ensures forall x :: 0 <= x < |s| ==> x in got + {qs[0]} || x in qs[1..]
  {
    assert qs == [qs[0]] + qs[1..];
  }

  /** The bytes of what has come below `n`. */
  ghost function Worth(s: seq<Slot>, got: set<nat>, n: nat): nat
    requires n <= |s|
  {
    if n == 0 then 0 else Worth(s, got, n - 1) + if n - 1 in got then |s[n - 1].data| else 0
  }

  lemma {:induction false} WorthMore(s: seq<Slot>, got: set<nat>, q: nat, n: nat)
    requires n <= |s| && q !in got && q < |s|
    ensures Worth(s, got + {q}, n) == Worth(s, got, n) + if q < n then |s[q].data| else 0
    decreases n
  {
    if n > 0 { WorthMore(s, got, q, n - 1); }
  }

  lemma {:induction false} NoWorth(s: seq<Slot>, n: nat)
    requires n <= |s|
    ensures Worth(s, {}, n) == 0
    decreases n
  {
    if n > 0 { NoWorth(s, n - 1); }
  }

  /** No fragment comes twice: a run brings what its fragments are worth. */
  lemma {:induction false} SumIsWorth(top: seq<nat>, members: seq<nat>, s: seq<Slot>, link: seq<nat>, got: set<nat>,
      qs: seq<nat>)
    requires Arriving(top, members, s, link, got, qs)
    ensures Inside(qs, s) && Worth(s, got + Elems(qs), |s|) == Worth(s, got, |s|) + Sum(s, qs)
    decreases |qs|
  {
    hide Arrives, Worth;
    ArrivingInside(top, members, s, link, got, qs);
    if qs == [] {
      assert got + Elems(qs) == got;
    } else {
      var q := qs[0];
      ArrivingOn(top, members, s, link, got, qs);
      NotYetCome(top, members, s, link, got, q);
      WorthMore(s, got, q, |s|);
      SumIsWorth(top[link[q] := q], members, s, link, got + {q}, qs[1..]);
      ElemsOn(got, qs);
    }
  }

  lemma NotYetCome(top: seq<nat>, members: seq<nat>, s: seq<Slot>, link: seq<nat>, got: set<nat>, q: nat)
    requires Arrives(top, members, s, link, got, q)
    ensures q !in got
  {
  }

  /** Every frame from `b` on fits the receiver's buffer. */
  ghost predicate Fitting(s: seq<Slot>, b: nat)
    decreases |s| - b
  {
    LastOf(s, b).Some? ==>
      var e := LastOf(s, b).value; 4 + |Whole(s, b, e)| <= MAXETHER && Fitting(s, e + 1)
  }

  lemma {:induction false} WholeWorth(s: seq<Slot>, got: set<nat>, b: nat, e: nat)
    requires b <= e < |s| && forall q :: b <= q <= e ==> q in got
    ensures |Whole(s, b, e)| + Worth(s, got, b) == Worth(s, got, e + 1)
    decreases e - b
  {
    if b < e { WholeWorth(s, got, b + 1, e); }
  }

  /** The complete frames are worth what has come up to the first incomplete one. */
  lemma {:induction false} FramesWorth(s: seq<Slot>, got: set<nat>, b: nat)
    requires b <= |s| && Fitting(s, b)
    ensures Bound(s, got, b) <= |s|
    ensures Bytes(Frames(s, got, b)) + Worth(s, got, b) == Worth(s, got, Bound(s, got, b))
    decreases |s| - b
  {
    hide LastOf, Whole, Worth;
    if Complete(s, got, b) {
      var e := LastOf(s, b).value;
      var w := Whole(s, b, e);
      WholeWorth(s, got, b, e);
      FramesWorth(s, got, e + 1);
      assert ([w] + Frames(s, got, e + 1))[1..] == Frames(s, got, e + 1);
    }
  }

  /** Whatever the interleaving of the links, as long as M passes nothing that is missing, what has been delivered
      are the complete frames before the first incomplete one, each once, in order and byte for byte. And that is
      exact: when every frame has come in the end, all are delivered if and only if M never did; if it did, fewer
      bytes come out than were sent. */
  lemma DeliveryIff(b: Bundle, members: seq<nat>, s: seq<Slot>, link: seq<nat>, qs: seq<nat>)
    requires Stream(s) && Routed(s, link, members) && Start(b, members)
    requires Arriving(Zero(|b.last|), members, s, link, {}, qs)
    ensures Ready(b, members) && Inside(qs, s)
    ensures var out, all := After(b, members, s, link, qs).frames, Frames(s, Elems(qs), 0);
            && (CalmRun(Zero(|b.last|), members, s, link, {}, qs) ==> out == all)
            && (Bound(s, Elems(qs), 0) == |s| && Fitting(s, 0) ==>
                  && (out == all <==> CalmRun(Zero(|b.last|), members, s, link, {}, qs))
                  && (out != all ==> Bytes(out) < Bytes(all)))
  {
    hide Inv, Frames, Take, Arriving, After, CalmRun, Ready, Bound, Load, Bytes, Fitting, Worth, Sum, Stream, Routed;
    var top := Zero(|b.last|);
    StartInv(b, members, s, link);
    ArrivingInside(top, members, s, link, {}, qs);
    assert {} + Elems(qs) == Elems(qs);
    if CalmRun(top, members, s, link, {}, qs) {
      RunDelivers(b, top, members, s, link, {}, qs);
    } else if Bound(s, Elems(qs), 0) == |s| && Fitting(s, 0) {
      AllCome(s, qs);
      UneasyWastes(b, top, members, s, link, {}, qs);
      BarrenLoad(b.ring.slots);
      SumIsWorth(top, members, s, link, {}, qs);
      NoWorth(s, |s|);
      FramesWorth(s, Elems(qs), 0);
      assert Worth(s, Elems(qs), 0) == 0 by { NothingBelow(s, Elems(qs)); }
    }
  }

  lemma AllCome(s: seq<Slot>, qs: seq<nat>)
    requires Bound(s, Elems(qs), 0) == |s|
    ensures forall q :: 0 <= q < |s| ==> q in qs
  {
    hide Bound;
    AllBelowBound(s, Elems(qs), 0);
    forall q | 0 <= q < |s|
      ensures q in qs
    {
      assert q in Elems(qs);
    }
  }

  lemma NothingBelow(s: seq<Slot>, got: set<nat>)
    ensures Worth(s, got, 0) == 0
  {
  }
}
