/** processmpin as it is written: the fragment array is overwritten in place, and the loops of the search
    and of the assembly step through it. */
module Reassembler {
  import opened Common
  import opened Multilink
  import PppFrame

  class Fragmentation {
    const fragment: array<Slot>
    var start_index: nat
    var start_seq: U32
    var M: U32
    const last_seq: array<U32>     // by session
    const members: seq<nat>
    var frames: seq<seq<Byte>>     // what went to processmpframe

    ghost predicate Shaped()
      reads this, fragment, last_seq
    {
      fragment.Length == MAXFRAGNUM && start_index < MAXFRAGNUM && Linked(members, last_seq[..])
    }

    /** The start index and every occupied slot are where their numbers say. */
    ghost predicate Valid()
      reads this, fragment, last_seq
    {
      Shaped() && Congruent(View())
    }

    ghost function View(): (r: Ring)
      requires Shaped()
      reads this, fragment, last_seq
      ensures Shape(r)
    {
      Ring(fragment[..], start_index, start_seq)
    }

    method Empty(i: nat)
      requires i < fragment.Length
      modifies fragment
      ensures fragment[..] == Clear(old(fragment[..]), i)
    {
      fragment[i] := fragment[i].(data := [], flags := 0);
    }

    /** The inner loop of the search: from a begin to the end of its frame. */
    method SearchEnd(begin_index: nat, b0: U32, Mmin: U32) returns (end_index: nat, b_seq: U32, isfoundE: bool)
      requires fragment.Length == MAXFRAGNUM && begin_index < MAXFRAGNUM
      modifies fragment
      ensures FindEnd(old(fragment[..]), begin_index, b0, Mmin) == Search(fragment[..], end_index, b_seq, isfoundE)
    {
      hide FindEnd;
      end_index, b_seq, isfoundE := begin_index, b0, false;
      while b_seq < Mmin
        invariant end_index < MAXFRAGNUM && !isfoundE && fragment[..] == old(fragment[..])
        invariant FindEnd(fragment[..], end_index, b_seq, Mmin) == FindEnd(old(fragment[..]), begin_index, b0, Mmin)
        decreases Mmin - b_seq
      {
        FindEndUnfold(fragment[..], end_index, b_seq, Mmin);
        if fragment[end_index].data == [] { return; }
        if b_seq != fragment[end_index].num {
          Empty(end_index);
          return;
        }
        if fragment[end_index].flags / 0x40 % 2 == 1 { return end_index, b_seq, true; }
        end_index := (end_index + 1) % MAXFRAGNUM;
        b_seq := (b_seq + 1) % WORD;
      }
      FindEndUnfold(fragment[..], end_index, b_seq, Mmin);
    }

    /** find_frame. When M is the largest word the count may wrap once; `Laps` says why the search still ends. */
    method SearchFrame(Mmin: U32)
      requires Shaped() && start_index == start_seq % MAXFRAGNUM
      modifies this`start_index, this`start_seq, fragment
      ensures Shaped() && View() == FindFrame(old(View()), old(start_index), old(start_seq), Mmin)
    {
      hide FindFrame, FindEnd, Laps;
      var begin_index: nat, b_seq: U32 := start_index, start_seq;
      ghost var r := View();
      while b_seq < Mmin
        invariant Shaped() && begin_index == b_seq % MAXFRAGNUM
        invariant FindFrame(View(), begin_index, b_seq, Mmin) == FindFrame(r, old(start_index), old(start_seq), Mmin)
        decreases Laps(fragment[..], b_seq, Mmin)
      {
        FindFrameUnfold(View(), begin_index, b_seq, Mmin);
        StepOn(fragment[..], b_seq, Mmin);
        if fragment[begin_index].data != [] {
          if b_seq != fragment[begin_index].num {
            Empty(begin_index);
          } else if fragment[begin_index].flags / 0x80 % 2 == 1 {
            start_index, start_seq := begin_index, b_seq;
            SearchOn(fragment[..], b_seq, Mmin);
            var isfoundE;
            begin_index, b_seq, isfoundE := SearchEnd(begin_index, b_seq, Mmin);
            if isfoundE { return; }
          }
        }
        begin_index := (begin_index + 1) % MAXFRAGNUM;
        b_seq := (b_seq + 1) % WORD;
      }
      FindFrameUnfold(View(), begin_index, b_seq, Mmin);
    }

    /** The end of the frame at the start, if no slot before it is empty. */
    method EndOfFrame() returns (e: Option<nat>)
      requires Shaped() && Full(fragment[start_index])
      ensures e == EndFrom(fragment[..], start_index, MAXFRAGNUM)
    {
      hide EndFrom, Full, Ends;
      var end_index: nat := start_index;
      ghost var n: nat := MAXFRAGNUM;
      while Full(fragment[end_index])
        invariant end_index < MAXFRAGNUM && 0 < n <= MAXFRAGNUM
        invariant (end_index - start_index) % MAXFRAGNUM == MAXFRAGNUM - n
        invariant EndFrom(fragment[..], end_index, n) == EndFrom(fragment[..], start_index, MAXFRAGNUM)
        decreases n
      {
        EndFromUnfold(fragment[..], end_index, n);
        if Ends(fragment[end_index]) { return Some(end_index); }
        StepAway(start_index, end_index, n);
        end_index := (end_index + 1) % MAXFRAGNUM;
        n := n - 1;
        if end_index == start_index {
          EndFromUnfold(fragment[..], end_index, n);
          return None;
        }
      }
      EndFromUnfold(fragment[..], end_index, n);
      return None;
    }

    /** The data of the frame is copied together and handed on, unless it is too long. */
    method CopyFrame(end_index: nat)
      requires Shaped() && end_index < MAXFRAGNUM
      modifies this`frames
      ensures var frame := Data(fragment[..], start_index, end_index);
              frames == old(frames) + if 4 + |frame| > MAXETHER then [] else [frame]
    {
      hide Data;
      var i: nat, reassembled_frame, cur_len := start_index, [], 4;
      while true
        invariant i < MAXFRAGNUM && frames == old(frames) && cur_len == 4 + |reassembled_frame|
        invariant reassembled_frame + Data(fragment[..], i, end_index) == Data(fragment[..], start_index, end_index)
        decreases Ahead(i, end_index)
      {
        DataUnfold(fragment[..], i, end_index);
        if cur_len + |fragment[i].data| > MAXETHER { return; }
        reassembled_frame := reassembled_frame + fragment[i].data;
        cur_len := cur_len + |fragment[i].data|;
        if i == end_index {
          frames := frames + [reassembled_frame];
          return;
        }
        i := (i + 1) % MAXFRAGNUM;
      }
    }

    /** The slots of the frame are marked as consumed. */
    method EmptyFrame(end_index: nat)
      requires Shaped() && end_index < MAXFRAGNUM
      modifies fragment
      ensures fragment[..] == ClearAll(old(fragment[..]), start_index, end_index)
    {
      hide ClearAll;
      var i: nat := start_index;
      while true
        invariant i < MAXFRAGNUM
        invariant ClearAll(fragment[..], i, end_index) == ClearAll(old(fragment[..]), start_index, end_index)
        decreases Ahead(i, end_index)
      {
        ClearAllUnfold(fragment[..], i, end_index);
        Empty(i);
        if i == end_index { return; }
        i := (i + 1) % MAXFRAGNUM;
      }
    }

    /** assembling_frame */
    method AssembleFrame(Mmin: U32) returns (next: Then)
      requires Shaped()
      modifies this`start_index, this`start_seq, this`frames, fragment
      ensures Shaped() && old(frames) <= frames
      ensures Assembly(View(), frames[|old(frames)|..], next) == Assemble(old(View()), Mmin)
    {
      hide Data, ClearAll, EndFrom;
      if !Full(fragment[start_index]) { return Stop; }
      if !Begins(fragment[start_index]) {
        start_index := (start_index + 1) % MAXFRAGNUM;
        start_seq := (start_seq + 1) % WORD;
        return Stop;
      }
      var e := EndOfFrame();
      if e == None { return Stop; }
      var end_index := e.value;
      CopyFrame(end_index);
      ClearAllNum(fragment[..], start_index, end_index);
      EmptyFrame(end_index);
      start_index := (end_index + 1) % MAXFRAGNUM;
      start_seq := (fragment[end_index].num + 1) % WORD;
      if Full(fragment[start_index]) && fragment[start_index].num != start_seq { Empty(start_index); }
      if start_seq <= Mmin { return Find; }
      if Full(fragment[start_index]) && Begins(fragment[start_index]) { return Again; }
      return Stop;
    }

    /** From find_frame on, as often as a label is gone back to. */
    method Process(Mmin: U32)
      requires Valid()
      modifies this`start_index, this`start_seq, this`frames, fragment
      ensures Valid() && old(frames) <= frames
      ensures Pumped(View(), frames[|old(frames)|..]) == Pump(old(View()), Mmin, true)
    {
      hide Pump, FindFrame, Assemble, Occupied;
      var find, next := true, Find;
      ghost var r := View();
      while true
        invariant Valid() && old(frames) <= frames
        invariant var p := Pump(View(), Mmin, find);
                  Pumped(p.ring, frames[|old(frames)|..] + p.frames) == Pump(r, Mmin, true)
        decreases Occupied(fragment[..])
      {
        PumpUnfold(View(), Mmin, find);
        ghost var was := frames;
        if find { SearchFrame(Mmin); }
        next := AssembleFrame(Mmin);
        Later(old(frames), was, frames);
        if next == Stop { return; }
        find := next == Find;
      }
    }

    /** A neighbour that does not follow on in number is left over and cleared. */
    method Check(i: nat, num: U32) returns (lost: bool)
      requires Valid() && i < MAXFRAGNUM
      modifies fragment
      ensures Valid() && lost == Stray(old(View()), i, num)
      ensures View() == if lost then Cleared(old(View()), i) else old(View())
    {
      ClearedCongruent(View(), i);
      lost := Full(fragment[i]) && fragment[i].num != num;
      if lost { Empty(i); }
    }

    /** The fragment goes to its slot, and its neighbours are checked. */
    method Store(i: nat, f: Slot, Mmin: U32)
      requires Valid() && i == f.num % MAXFRAGNUM
      modifies this`start_index, this`start_seq, this`frames, fragment
      ensures Valid() && old(frames) <= frames
      ensures Pumped(View(), frames[|old(frames)|..]) == Insert(old(View()), i, f, Mmin)
    {
      hide Pump, Stray, Cleared, Placed;
      InsertedCongruent(View(), f);
      fragment[i] := f;
      var next, prev: nat := (i + 1) % MAXFRAGNUM, (i - 1) % MAXFRAGNUM;
      var lost;
      if next != start_index {
        lost := Check(next, (f.num + 1) % WORD);
        if lost && Begins(f) && !Ends(f) { return; }
      }
      if i != start_index {
        lost := Check(prev, (f.num - 1) % WORD);
        if lost && Ends(f) && !Begins(f) { return; }
      }
      Process(Mmin);
    }

    /** The smallest of the last numbers of the members. */
    method Least() returns (m: U32)
      requires Linked(members, last_seq[..])
      ensures m == MinLast(last_seq[..], members)
    {
      m := last_seq[members[0]];
      var i := 1;
      while i < |members|
        invariant 1 <= i <= |members| && m == MinLast(last_seq[..], members[..i])
      {
        assert members[..i + 1][..i] == members[..i];
        var s_seq := last_seq[members[i]];
        if s_seq < m { m := s_seq; }
        i := i + 1;
      }
      assert members[..i] == members;
    }

    /** The ring is moved on after a long break, and the fragment stored if it has a place in it. */
    method Settle(f: Slot, Mmin: U32)
      requires Valid()
      modifies this`start_index, this`start_seq, this`frames, fragment
      ensures Valid() && old(frames) <= frames
      ensures Pumped(View(), frames[|old(frames)|..]) == Settled(old(View()), f, Mmin)
    {
      hide Insert, Signed, Placed;
      SkipCongruent(View(), Mmin);
      PlaceIsAt(Skip(View(), Mmin), f.num);
      var frag_offset := Signed(f.num - start_seq);
      var M_offset := Signed(Mmin - start_seq);
      if M_offset >= MAXFRAGNUM {
        start_index := (M_offset + start_index) % MAXFRAGNUM;
        start_seq := Mmin;
        frag_offset := Signed(f.num - Mmin);
      }
      if frag_offset < 0 { return; }
      if frag_offset >= MAXFRAGNUM { return; }
      Store((frag_offset + start_index) % MAXFRAGNUM, f, Mmin);
    }

    /** processmpin: a fragment `p`, flags and number first, arrives on session `s`. */
    method Receive(s: nat, p: seq<Byte>)
      requires Valid() && s in members && |p| >= 4
      modifies this`start_index, this`start_seq, this`M, this`frames, fragment, last_seq
      ensures Valid() && old(frames) <= frames
      ensures Received(Bundle(View(), M, last_seq[..]), frames[|old(frames)|..]) ==
              Multilink.Receive(Bundle(old(View()), old(M), old(last_seq[..])), members, s, p[0], Low(p), p[4..])
    {
      hide Settled, Expand, MinLast, Placed;
      if |p| > MAXFRAGLEN { return; }
      var flags, data := p[0], p[4..];
      var seq_num := Expand(M, Low(p));
      last_seq[s] := seq_num;
      assert last_seq[..] == old(last_seq[..])[s := seq_num];
      var Mmin;
      if seq_num < M {
        Mmin := seq_num;
      } else {
        Mmin := Least();
      }
      M := Mmin;
      LeastAtMost(last_seq[..], members, s);
      Settle(Slot(data, flags, seq_num), Mmin);
    }
  }

  /** The 24-bit number behind the flags. */
  function Low(p: seq<Byte>): (x: nat)
    requires |p| >= 4
    ensures x < MAX_SEQ
  {
    p[1] as int * 0x1_0000 + p[2] as int * 0x100 + p[3] as int
  }

  /** What the sender's header says is read back: the bits, the low 24 bits of the number, and the data. */
  lemma HeaderIsRead(f: PppFrame.Frame, y: seq<Byte>)
    requires f.mp.Some? && !f.mssf
    ensures var p := PppFrame.MpHeader(f) + y;
            && |p| >= 4 && p[0] == f.mp.value.bits && Low(p) == f.mp.value.num % 0x100_0000
            && p[4..] == (if BeginBit(f.mp.value.bits) then Be16(f.mtype) else []) + y
  {
    hide PppFrame.Short, Be16, BeginBit;
    PppFrame.LongHeader(f, y);
  }

  lemma PlaceIsAt(r: Ring, x: U32)
    requires Congruent(r)
    ensures Place(r, x).Some? ==> Place(r, x).value == x % MAXFRAGNUM
  {
    if Place(r, x).Some? { PlaceIs(r, x); }
  }

  lemma LeastAtMost(last: seq<U32>, members: seq<nat>, s: nat)
    requires Linked(members, last) && s in members
    ensures s < |last| && MinLast(last, members) <= last[s]
  {
    var k :| 0 <= k < |members| && members[k] == s;
  }

  lemma Later<T>(a: seq<T>, b: seq<T>, c: seq<T>)
    requires a <= b <= c
    ensures a <= c && c[|a|..] == b[|a|..] + c[|b|..]
  {
  }

  lemma FindEndUnfold(slots: seq<Slot>, i: nat, b: nat, m: nat)
    requires |slots| == MAXFRAGNUM && i < MAXFRAGNUM
    ensures FindEnd(slots, i, b, m) ==
      if b >= m || !Full(slots[i]) then Search(slots, i, b, false)
      else if slots[i].num != b then Search(Clear(slots, i), i, b, false)
      else if Ends(slots[i]) then Search(slots, i, b, true)
      else FindEnd(slots, Next(i), b + 1, m)
  {
  }

  /** One round of the search. */
  function FindOn(r: Ring, i: nat, b: U32, m: U32): Ring
    requires Shape(r) && i == b % MAXFRAGNUM && b < m
  {
    StepOn(r.slots, b, m);
    if !Full(r.slots[i]) then FindFrame(r, Next(i), b + 1, m)
    else if r.slots[i].num != b then FindFrame(r.(slots := Clear(r.slots, i)), Next(i), b + 1, m)
    else if !Begins(r.slots[i]) then FindFrame(r, Next(i), b + 1, m)
    else
      var e := FindEnd(r.slots, i, b, m);
      SearchOn(r.slots, b, m);
      if e.found then Ring(e.slots, i, b) else FindFrame(Ring(e.slots, i, b), Next(e.i), (e.b + 1) % WORD, m)
  }

  lemma FindFrameUnfold(r: Ring, i: nat, b: U32, m: U32)
    requires Shape(r) && i == b % MAXFRAGNUM
    ensures b >= m ==> FindFrame(r, i, b, m) == r
    ensures b < m ==> Next(i) == (b + 1) % MAXFRAGNUM
    ensures b < m ==> FindFrame(r, i, b, m) == FindOn(r, i, b, m)
  {
    hide FindEnd, Laps;
    if b < m { StepOn(r.slots, b, m); SearchOn(r.slots, b, m); }
  }

  lemma EndFromUnfold(slots: seq<Slot>, i: nat, n: nat)
    requires |slots| == MAXFRAGNUM && i < MAXFRAGNUM
    ensures EndFrom(slots, i, n) ==
      if n == 0 || !Full(slots[i]) then None else if Ends(slots[i]) then Some(i) else EndFrom(slots, Next(i), n - 1)
  {
  }

  lemma StepAway(start: nat, i: nat, n: nat)
    requires start < MAXFRAGNUM && i < MAXFRAGNUM && 0 < n <= MAXFRAGNUM && (i - start) % MAXFRAGNUM == MAXFRAGNUM - n
    ensures if (i + 1) % MAXFRAGNUM == start then n == 1
            else n > 1 && ((i + 1) % MAXFRAGNUM - start) % MAXFRAGNUM == MAXFRAGNUM - (n - 1)
  {
  }

  lemma DataUnfold(slots: seq<Slot>, i: nat, e: nat)
    requires |slots| == MAXFRAGNUM && i < MAXFRAGNUM && e < MAXFRAGNUM
    ensures Data(slots, i, e) == if i == e then slots[i].data else slots[i].data + Data(slots, Next(i), e)
    ensures i != e ==> Ahead(Next(i), e) < Ahead(i, e)
  {
  }

  lemma ClearAllUnfold(slots: seq<Slot>, i: nat, e: nat)
    requires |slots| == MAXFRAGNUM && i < MAXFRAGNUM && e < MAXFRAGNUM
    ensures ClearAll(slots, i, e) == if i == e then Clear(slots, i) else ClearAll(Clear(slots, i), Next(i), e)
    ensures i != e ==> Ahead(Next(i), e) < Ahead(i, e)
  {
  }

  /** A consumed fragment keeps its number. */
  lemma {:induction false} ClearAllNum(slots: seq<Slot>, i: nat, e: nat)
    requires |slots| == MAXFRAGNUM && i < MAXFRAGNUM && e < MAXFRAGNUM
    ensures forall j :: 0 <= j < MAXFRAGNUM ==> ClearAll(slots, i, e)[j].num == slots[j].num
    decreases Ahead(i, e)
  {
    if i != e { ClearAllNum(Clear(slots, i), Next(i), e); }
  }

  lemma PumpUnfold(r: Ring, m: U32, find: bool)
    requires Congruent(r)
    ensures var r' := if find then FindFrame(r, r.index, r.start, m) else r;
            var a := Assemble(r', m);
            && Congruent(a.ring)
            && if a.next == Stop then Pump(r, m, find) == Pumped(a.ring, a.frames)
               else
                 var p := Pump(a.ring, m, a.next == Find);
                 && Pump(r, m, find) == Pumped(p.ring, a.frames + p.frames)
                 && Occupied(a.ring.slots) < Occupied(r.slots)
  {
    hide FindFrame, Assemble, Occupied;
    RoundKeeps(r, m, find);
  }
}
