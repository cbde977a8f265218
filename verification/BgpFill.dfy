/** How much one UPDATE says, and in which order: as many withdrawals as fit, smallest first, and the smallest route
    that is missing. */
module BgpFill {
  import opened Common
  import opened BgpRoutes

  // ---- the order of the lists ----

  /** A route in memory: its length, then the prefix in network order. */
  function Memory(d: Dest): (z: seq<Byte>)
    ensures |z| == 5
  {
    [d.len] + Be32(d.prefix)
  }

  /** What memcmp finds: the first byte in which the two differ is smaller. */
  ghost predicate MemorySmaller(x: seq<Byte>, y: seq<Byte>)
    requires |x| == |y|
  {
    exists i :: 0 <= i < |x| && x[i] < y[i] && forall j :: 0 <= j < i ==> x[j] == y[j]
  }

  lemma Digits(x: U32)
    ensures var z := Be32(x);
            x == 0x100_0000 * (z[0] as int) + 0x1_0000 * (z[1] as int) + 0x100 * (z[2] as int) + z[3] as int
  {
    var a, b := x / 0x100, x / 0x1_0000;
    assert b == a / 0x100 && x / 0x100_0000 == b / 0x100;
  }

  /** The lists are ordered by length and then by prefix, as memcmp on the structure has it. */
  lemma OrderIsMemory(a: Dest, b: Dest)
    ensures Less(a, b) <==> MemorySmaller(Memory(a), Memory(b))
    ensures Compare(a, b) < 0 <==> MemorySmaller(Memory(a), Memory(b))
    ensures Compare(a, b) == 0 <==> Memory(a) == Memory(b)
  {
    Digits(a.prefix);
    Digits(b.prefix);
    hide Be32;
    var x, y := Memory(a), Memory(b);
    if Less(a, b) {
      var i := if x[0] != y[0] then 0 else if x[1] != y[1] then 1 else if x[2] != y[2] then 2
               else if x[3] != y[3] then 3 else 4;
      assert x[i] < y[i] && forall j :: 0 <= j < i ==> x[j] == y[j];
    }
    if MemorySmaller(x, y) {
      var i :| 0 <= i < 5 && x[i] < y[i] && forall j :: 0 <= j < i ==> x[j] == y[j];
      assert i > 0 ==> x[0] == y[0];
      assert i > 1 ==> x[1] == y[1];
      assert i > 2 ==> x[2] == y[2];
      assert i > 3 ==> x[3] == y[3];
    }
    assert x == y ==> x[0] == y[0] && x[1] == y[1] && x[2] == y[2] && x[3] == y[3] && x[4] == y[4];
  }

  // ---- how far a message goes ----

  /** The bytes the routes take: for each its length and as many bytes as that has bits. */
  function Cost(ds: seq<Dest>): nat {
    if ds == [] then 0 else 1 + (ds[0].len as int + 7) / 8 + Cost(ds[1..])
  }

  /** Unless the message is full, whatever is advertised and unwanted is withdrawn, and the smallest wanted route that
      is not advertised is added. When it is full, the smallest of the unwanted ones are withdrawn. */
  ghost predicate Fills(have: seq<Dest>, want: seq<Dest>, room: int, add: Option<Dest>, p: Plan) {
    && (Cost(p.withdrawn) < room ==>
          && Elems(have) - Elems(want) <= Elems(p.withdrawn)
          && (p.add.None? ==> Elems(want) <= Elems(have)))
    && (forall x, y :: x in p.withdrawn && y in Elems(have) - Elems(want) - Elems(p.withdrawn) ==> Less(x, y))
    && (add.Some? ==> p.add == add)
    && (add.None? && p.add.Some? ==> forall d :: d in Elems(want) - Elems(have) ==> !Less(d, p.add.value))
  }

  lemma CostCons(d: Dest, ds: seq<Dest>)
    ensures Cost([d] + ds) == WireSize(d) + Cost(ds)
  {
    assert ([d] + ds)[1..] == ds;
  }

  /** An unwanted route goes first. */
  lemma FillsWithdrawn(have: seq<Dest>, want: seq<Dest>, room: int, add: Option<Dest>, p: Plan)
    requires Sorted(have) && Sorted(want) && have != [] && (want == [] || Less(have[0], want[0]))
    requires Fills(have[1..], want, room - WireSize(have[0]), add, p)
    ensures Fills(have, want, room, add, p.(withdrawn := [have[0]] + p.withdrawn))
  {
    hide Sorted, Elems, Cost, WireSize, Less;
    Tail(have);
    if want != [] { Missing(want, have); } else { Empties(); }
    CostCons(have[0], p.withdrawn);
    var p' := p.(withdrawn := [have[0]] + p.withdrawn);
    MembersOf(have[0], p.withdrawn);
  }

  lemma MembersOf(d: Dest, ds: seq<Dest>)
    ensures Elems([d] + ds) == Elems(ds) + {d} && forall x :: x in [d] + ds <==> x == d || x in ds
    ensures forall x :: x in Elems(ds) <==> x in ds
  {
  }

  lemma FillsKept(have: seq<Dest>, want: seq<Dest>, room: int, add: Option<Dest>, p: Plan)
    requires Sorted(have) && Sorted(want) && have != [] && want != [] && have[0] == want[0]
    requires Fills(have[1..], want[1..], room, add, p)
    ensures Fills(have, want, room, add, p.(kept := [have[0]] + p.kept))
  {
    hide Sorted, Cost, Elems, Less;
    Tail(have);
    Tail(want);
    assert Elems(have) - Elems(want) == Elems(have[1..]) - Elems(want[1..]);
    assert Elems(want) - Elems(have) == Elems(want[1..]) - Elems(have[1..]);
  }

  /** A missing route is passed over or chosen. */
  lemma FillsWanted(have: seq<Dest>, want: seq<Dest>, room: int, add: Option<Dest>, p: Plan, more: bool)
    requires Sorted(have) && Sorted(want) && want != [] && (have == [] || Less(want[0], have[0]))
    requires Fills(have, want[1..], room, if add.Some? then add else Some(want[0]), p)
    ensures Fills(have, want, room, add, p.(more := more))
  {
    hide Sorted, Cost, Elems, Less;
    Tail(want);
    Missing(have, want);
    NotLess(want[0]);
    assert Elems(have) - Elems(want) == Elems(have) - Elems(want[1..]);
    if add.None? {
      forall d | d in Elems(want) - Elems(have)
        ensures !Less(d, want[0])
      {
        if d != want[0] { Opposite(want[0], d); }
      }
    }
  }

  lemma NotLess(d: Dest)
    ensures !Less(d, d)
  {
  }

  lemma Opposite(x: Dest, y: Dest)
    requires Less(x, y)
    ensures !Less(y, x)
  {
  }

  lemma {:induction false} DifferenceFills(have: seq<Dest>, want: seq<Dest>, used: nat, limit: int, add: Option<Dest>)
    requires Sorted(have) && Sorted(want)
    ensures Fills(have, want, limit - used, add, Difference(have, want, used, limit, add))
    decreases |have| + |want|
  {
    hide Sorted, Difference, Fills, WireSize;
    DifferenceUnfold(have, want, used, limit, add);
    var room := limit - used;
    if have == [] && want == [] {
      FillsNothing(have, want, room, add, Plan([], [], add, false));
    } else if used >= limit {
      FillsNothing(have, want, room, add, Plan([], have, add, true));
    } else if have != [] && (want == [] || Less(have[0], want[0])) {
      Tail(have);
      DifferenceFills(have[1..], want, used + WireSize(have[0]), limit, add);
      FillsWithdrawn(have, want, room, add, Difference(have[1..], want, used + WireSize(have[0]), limit, add));
    } else if have != [] && have[0] == want[0] {
      Tail(have);
      Tail(want);
      DifferenceFills(have[1..], want[1..], used, limit, add);
      FillsKept(have, want, room, add, Difference(have[1..], want[1..], used, limit, add));
    } else if add.Some? && have == [] {
      FillsNothing(have, want, room, add, Plan([], [], add, true));
    } else {
      Tail(want);
      var add' := if add.Some? then add else Some(want[0]);
      Apart(have, want);
      DifferenceFills(have, want[1..], used, limit, add');
      var p := Difference(have, want[1..], used, limit, add');
      FillsWanted(have, want, room, add, p, if add.Some? then true else p.more);
    }
  }

  /** The order is total. */
  lemma Apart(have: seq<Dest>, want: seq<Dest>)
    requires want != [] && (have != [] ==> !Less(have[0], want[0]) && have[0] != want[0])
    ensures have == [] || Less(want[0], have[0])
  {
  }

  lemma FillsNothing(have: seq<Dest>, want: seq<Dest>, room: int, add: Option<Dest>, p: Plan)
    requires p.withdrawn == [] && p.add == add && (have == [] || room <= 0)
    requires room <= 0 || add.Some? || want == []
    ensures Fills(have, want, room, add, p)
  {
  }

  /** An UPDATE with `attrs` bytes of path attributes is full when its withdrawals take 4063 bytes less those; up to
      there it withdraws whatever there is to withdraw, smallest first, and it adds the smallest route missing. */
  lemma UpdateFills(have: seq<Dest>, want: seq<Dest>, attrs: nat)
    requires Sorted(have) && Sorted(want)
    ensures Fills(have, want, 4063 - attrs, None, Update(have, want, attrs))
  {
    hide Sorted, Difference, Fills;
    DifferenceFills(have, want, 2, Limit(attrs), None);
  }
}
