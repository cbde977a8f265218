/** What bgp_send_update decides: which advertised routes to withdraw and which wanted one to add, in
    one pass over two sorted lists, within one message. */
module BgpRoutes {
  import opened Common

  /** A route as it is kept: the prefix is in network order, so comparing memory compares (len, prefix). */
  datatype Dest = Dest(len: Byte, prefix: U32)

  predicate Less(a: Dest, b: Dest) { a.len < b.len || (a.len == b.len && a.prefix < b.prefix) }

  /** The sign memcmp gives. */
  function Compare(a: Dest, b: Dest): int { if Less(a, b) then -1 else if a == b then 0 else 1 }

  ghost predicate Sorted(s: seq<Dest>) { forall i, j :: 0 <= i < j < |s| ==> Less(s[i], s[j]) }

  function Elems(s: seq<Dest>): set<Dest> { set d | d in s }

  // ---- the lists ----

  /** Where bgp_insert_route puts `d`: before the first entry that is not smaller. */
  function Position(s: seq<Dest>, d: Dest): (i: nat)
    ensures i <= |s|
    ensures forall j :: 0 <= j < i ==> Less(s[j], d)
    ensures i < |s| ==> !Less(s[i], d)
  {
    if s == [] || !Less(s[0], d) then 0 else 1 + Position(s[1..], d)
  }

  function Inserted(s: seq<Dest>, d: Dest): seq<Dest> { s[..Position(s, d)] + [d] + s[Position(s, d)..] }

  function Added(s: seq<Dest>, d: Dest): seq<Dest> { if d in s then s else Inserted(s, d) }

  function Removed(s: seq<Dest>, d: Dest): seq<Dest> {
    var i := Position(s, d);
    if i < |s| && s[i] == d then s[..i] + s[i + 1..] else s
  }

  /** In a sorted list everything from there on is larger, but for `d` itself. */
  lemma FromPosition(s: seq<Dest>, d: Dest, j: nat)
    requires Sorted(s) && Position(s, d) <= j < |s|
    ensures Less(d, s[j]) || (j == Position(s, d) && s[j] == d)
  {
    assert Position(s, d) == j || Less(s[Position(s, d)], s[j]);
  }

  lemma InsertedSorted(s: seq<Dest>, d: Dest)
    requires Sorted(s) && d !in s
    ensures Sorted(Inserted(s, d)) && Elems(Inserted(s, d)) == Elems(s) + {d}
  {
    hide Position, Less;
    var i, r := Position(s, d), Inserted(s, d);
    forall j | i <= j < |s|
      ensures Less(d, s[j])
    {
      FromPosition(s, d, j);
    }
    assert s == s[..i] + s[i..];
    assert forall x :: x in r <==> x in s[..i] || x == d || x in s[i..];
  }

  lemma AddedSorted(s: seq<Dest>, d: Dest)
    requires Sorted(s)
    ensures Sorted(Added(s, d)) && Elems(Added(s, d)) == Elems(s) + {d}
  {
    if d !in s { InsertedSorted(s, d); }
  }

  lemma RemovedSorted(s: seq<Dest>, d: Dest)
    requires Sorted(s)
    ensures Sorted(Removed(s, d)) && Elems(Removed(s, d)) == Elems(s) - {d}
  {
    hide Position;
    var i, r := Position(s, d), Removed(s, d);
    forall j | 0 <= j < |s| && j != i
      ensures s[j] != d
    {
      if j >= i { FromPosition(s, d, j); }
    }
    if i < |s| && s[i] == d {
      assert forall x :: x in r <==> x in s[..i] || x in s[i + 1..];
      assert s == s[..i] + [d] + s[i + 1..];
    } else {
      assert i < |s| ==> s[i] != d;
    }
  }

  /** A sorted list is determined by its elements. */
  lemma {:induction false} SortedUnique(a: seq<Dest>, b: seq<Dest>)
    requires Sorted(a) && Sorted(b) && Elems(a) == Elems(b)
    ensures a == b
    decreases |a|
  {
    assert b != [] ==> b[0] in Elems(b);
    if a != [] {
      assert a[0] in Elems(a);
      var i :| 0 <= i < |b| && b[i] == a[0];
      var j :| 0 <= j < |a| && a[j] == b[0];
      assert a[0] == b[0];
      forall d
        ensures d in Elems(a[1..]) <==> d in Elems(b[1..])
      {
        assert d in Elems(a) <==> d in Elems(b);
        assert d in a <==> d == a[0] || d in a[1..];
        assert d in b <==> d == b[0] || d in b[1..];
      }
      SortedUnique(a[1..], b[1..]);
    }
  }

  // ---- the difference ----

  const MAX_DATA := 4077      // a BGP message of 4096 bytes without its header of 19
  const PREFIX_STRUCT := 5

  /** The bytes a prefix takes on the wire. */
  function WireSize(d: Dest): (n: nat)
    ensures n >= 1
  {
    1 + d.len / 8 + if d.len % 8 != 0 then 1 else 0
  }

  /** What one message will say, what remains advertised, and whether another message is needed. */
  datatype Plan = Plan(withdrawn: seq<Dest>, kept: seq<Dest>, add: Option<Dest>, more: bool)

  /** Bytes of message data up to which a further withdrawal is considered. */
  function Limit(attrs: nat): int { MAX_DATA - 2 - attrs - PREFIX_STRUCT - PREFIX_STRUCT }

  /** The loop of bgp_send_update, with `used` bytes of data written and `add` chosen already. */
  function Difference(have: seq<Dest>, want: seq<Dest>, used: nat, limit: int, add: Option<Dest>): (p: Plan)
    decreases |have| + |want|
  {
    if have == [] && want == [] then Plan([], [], add, false)
    else if used >= limit then Plan([], have, add, true)
    else if have != [] && (want == [] || Less(have[0], want[0])) then
      var p := Difference(have[1..], want, used + WireSize(have[0]), limit, add);
      p.(withdrawn := [have[0]] + p.withdrawn)
    else if have != [] && have[0] == want[0] then
      var p := Difference(have[1..], want[1..], used, limit, add);
      p.(kept := [have[0]] + p.kept)
    else if add.Some? then
      if have == [] then Plan([], [], add, true)
      else Difference(have, want[1..], used, limit, add).(more := true)
    else Difference(have, want[1..], used, limit, Some(want[0]))
  }

  lemma DifferenceUnfold(have: seq<Dest>, want: seq<Dest>, used: nat, limit: int, add: Option<Dest>)
    ensures Difference(have, want, used, limit, add) ==
      if have == [] && want == [] then Plan([], [], add, false)
      else if used >= limit then Plan([], have, add, true)
      else if have != [] && (want == [] || Less(have[0], want[0])) then
        var p := Difference(have[1..], want, used + WireSize(have[0]), limit, add);
        p.(withdrawn := [have[0]] + p.withdrawn)
      else if have != [] && have[0] == want[0] then
        var p := Difference(have[1..], want[1..], used, limit, add);
        p.(kept := [have[0]] + p.kept)
      else if add.Some? then
        if have == [] then Plan([], [], add, true)
        else Difference(have, want[1..], used, limit, add).(more := true)
      else Difference(have, want[1..], used, limit, Some(want[0]))
  {
  }

  /** Halfway through the loop: `wd` is withdrawn, `have[..i]` kept, `want[..j]` dealt with. */
  ghost predicate Tracks(p: Plan, wd: seq<Dest>, have: seq<Dest>, i: nat, want: seq<Dest>, j: nat,
                         used: nat, limit: int, add: Option<Dest>, more: bool)
    requires i <= |have| && j <= |want|
  {
    var r := Difference(have[i..], want[j..], used, limit, add);
    p == Plan(wd + r.withdrawn, have[..i] + r.kept, r.add, more || r.more)
  }

  lemma TrackWithdrawn(p: Plan, wd: seq<Dest>, have: seq<Dest>, i: nat, want: seq<Dest>, j: nat, used: nat, limit: int,
    add: Option<Dest>, more: bool)
    requires i < |have| && j <= |want| && Tracks(p, wd, have, i, want, j, used, limit, add, more)
    requires used < limit && (j == |want| || Less(have[i], want[j]))
    ensures var have' := have[..i] + have[i + 1..];
            Tracks(p, wd + [have[i]], have', i, want, j, used + WireSize(have[i]), limit, add, more)
  {
    hide Difference;
    DifferenceUnfold(have[i..], want[j..], used, limit, add);
    var have' := have[..i] + have[i + 1..];
    assert have'[i..] == have[i..][1..] && have'[..i] == have[..i];
    var r := Difference(have'[i..], want[j..], used + WireSize(have[i]), limit, add);
    assert wd + ([have[i]] + r.withdrawn) == wd + [have[i]] + r.withdrawn;
  }

  lemma TrackKept(p: Plan, wd: seq<Dest>, have: seq<Dest>, i: nat, want: seq<Dest>, j: nat, used: nat, limit: int,
    add: Option<Dest>, more: bool)
    requires i < |have| && j < |want| && Tracks(p, wd, have, i, want, j, used, limit, add, more)
    requires used < limit && have[i] == want[j]
    ensures Tracks(p, wd, have, i + 1, want, j + 1, used, limit, add, more)
  {
    hide Difference;
    DifferenceUnfold(have[i..], want[j..], used, limit, add);
    assert have[i..][1..] == have[i + 1..] && want[j..][1..] == want[j + 1..];
    assert have[..i + 1] == have[..i] + [have[i]];
  }

  lemma TrackWanted(p: Plan, wd: seq<Dest>, have: seq<Dest>, i: nat, want: seq<Dest>, j: nat, used: nat, limit: int,
    add: Option<Dest>, more: bool)
    requires i <= |have| && j < |want| && Tracks(p, wd, have, i, want, j, used, limit, add, more)
    requires used < limit && (i == |have| || Less(want[j], have[i]))
    ensures add.None? ==> Tracks(p, wd, have, i, want, j + 1, used, limit, Some(want[j]), more)
    ensures add.Some? && i < |have| ==> Tracks(p, wd, have, i, want, j + 1, used, limit, add, true)
    ensures add.Some? && i == |have| ==> p == Plan(wd, have, add, true)
  {
    hide Difference;
    DifferenceUnfold(have[i..], want[j..], used, limit, add);
    assert want[j..][1..] == want[j + 1..];
    assert i == |have| ==> have[..i] == have && have[i..] == [];
  }

  lemma TrackDone(p: Plan, wd: seq<Dest>, have: seq<Dest>, i: nat, want: seq<Dest>, j: nat, used: nat, limit: int,
    add: Option<Dest>, more: bool)
    requires i <= |have| && j <= |want| && Tracks(p, wd, have, i, want, j, used, limit, add, more)
    requires used >= limit || (i == |have| && j == |want|)
    ensures p == Plan(wd, have, add, more || i < |have| || j < |want|)
  {
    hide Difference;
    DifferenceUnfold(have[i..], want[j..], used, limit, add);
    assert have[..i] + have[i..] == have;
  }

  function Update(have: seq<Dest>, want: seq<Dest>, attrs: nat): Plan { Difference(have, want, 2, Limit(attrs), None) }

  /** The list of advertised routes after the message. */
  function Advertised(p: Plan): seq<Dest> { if p.add.Some? then Inserted(p.kept, p.add.value) else p.kept }

  function SymDiff(a: set<Dest>, b: set<Dest>): set<Dest> { (a - b) + (b - a) }

  function AddSet(add: Option<Dest>): set<Dest> { if add.Some? then {add.value} else {} }

  /** Withdrawals are advertised and unwanted, the rest is kept, an addition is wanted and not advertised. */
  ghost predicate Correct(have: seq<Dest>, want: seq<Dest>, add: Option<Dest>, p: Plan) {
    && Elems(p.withdrawn) <= Elems(have) - Elems(want)
    && Elems(p.kept) == Elems(have) - Elems(p.withdrawn) && Sorted(p.kept) && Sorted(p.withdrawn)
    && (add.Some? ==> p.add == add)
    && (add.None? && p.add.Some? ==> p.add.value in Elems(want) - Elems(have))
    && (!p.more ==> Elems(p.kept) + AddSet(p.add) == Elems(want) + AddSet(add))
  }

  lemma Tail(s: seq<Dest>)
    requires s != [] && Sorted(s)
    ensures Sorted(s[1..]) && Elems(s) == Elems(s[1..]) + {s[0]} && s[0] !in Elems(s[1..])
    ensures forall d :: d in Elems(s[1..]) ==> Less(s[0], d)
  {
    assert forall d :: d in s <==> d == s[0] || d in s[1..];
  }

  lemma Cons(d: Dest, s: seq<Dest>)
    requires Sorted(s) && forall x :: x in Elems(s) ==> Less(d, x)
    ensures Sorted([d] + s) && Elems([d] + s) == Elems(s) + {d}
  {
    assert forall i :: 0 <= i < |s| ==> s[i] in Elems(s);
    assert forall x :: x in [d] + s <==> x == d || x in s;
  }

  /** A wanted route that comes before everything advertised is not advertised. */
  lemma Missing(have: seq<Dest>, want: seq<Dest>)
    requires Sorted(have) && Sorted(want) && want != [] && (have == [] || Less(want[0], have[0]))
    ensures want[0] !in Elems(have)
  {
    if have != [] { Tail(have); }
  }

  /** The loop's answer is correct whatever the limit. */
  lemma {:induction false} DifferenceCorrect(have: seq<Dest>, want: seq<Dest>, used: nat, limit: int, add: Option<Dest>)
    requires Sorted(have) && Sorted(want)
    ensures Correct(have, want, add, Difference(have, want, used, limit, add))
    decreases |have| + |want|
  {
    hide Sorted, Elems, WireSize;
    Empties();
    if have == [] && want == [] {
    } else if used >= limit {
    } else if have != [] && (want == [] || Less(have[0], want[0])) {
      Tail(have);
      if want != [] { Missing(want, have); }
      DifferenceCorrect(have[1..], want, used + WireSize(have[0]), limit, add);
      Cons(have[0], Difference(have[1..], want, used + WireSize(have[0]), limit, add).withdrawn);
    } else if have != [] && have[0] == want[0] {
      Tail(have);
      Tail(want);
      DifferenceCorrect(have[1..], want[1..], used, limit, add);
      Cons(have[0], Difference(have[1..], want[1..], used, limit, add).kept);
    } else {
      Tail(want);
      Missing(have, want);
      if add.Some? {
        if have != [] { DifferenceCorrect(have, want[1..], used, limit, add); }
      } else {
        DifferenceCorrect(have, want[1..], used, limit, Some(want[0]));
      }
    }
  }

  lemma Empties()
    ensures Elems([]) == {} && Sorted([])
  {
  }

  /** A message that leaves something undone says something: there is room for one change at least. */
  lemma {:induction false} MoreSaysSomething(have: seq<Dest>, want: seq<Dest>, used: nat, limit: int, add: Option<Dest>)
    requires used < limit || add.Some?
    ensures var p := Difference(have, want, used, limit, add);
            && (p.more ==> p.withdrawn != [] || p.add.Some?)
            && (add.Some? ==> p.add.Some?)
    decreases |have| + |want|
  {
    if have == [] && want == [] {
    } else if used >= limit {
    } else if have != [] && (want == [] || Less(have[0], want[0])) {
      if add.Some? { MoreSaysSomething(have[1..], want, used + WireSize(have[0]), limit, add); }
    } else if have != [] && have[0] == want[0] {
      MoreSaysSomething(have[1..], want[1..], used, limit, add);
    } else if add.Some? {
      if have != [] { MoreSaysSomething(have, want[1..], used, limit, add); }
    } else {
      MoreSaysSomething(have, want[1..], used, limit, Some(want[0]));
    }
  }

  // ---- what a message does ----

  /** A message withdraws only unwanted routes and adds only a missing one; the list stays sorted and
      free of duplicates; whatever is said brings the two sets closer by exactly that; and the flag is
      left clear only when they are equal. */
  lemma UpdateIsCorrect(have: seq<Dest>, want: seq<Dest>, attrs: nat)
    requires Sorted(have) && Sorted(want)
    ensures var p := Update(have, want, attrs); var have' := Advertised(p);
            && Sorted(have')
            && Elems(p.withdrawn) <= Elems(have) - Elems(want) && AddSet(p.add) <= Elems(want) - Elems(have)
            && Elems(have') == Elems(have) - Elems(p.withdrawn) + AddSet(p.add)
            && SymDiff(Elems(have'), Elems(want)) ==
               SymDiff(Elems(have), Elems(want)) - Elems(p.withdrawn) - AddSet(p.add)
            && (!p.more ==> have' == want)
  {
    hide Sorted, Elems, Difference;
    var p := Update(have, want, attrs);
    DifferenceCorrect(have, want, 2, Limit(attrs), None);
    if p.add.Some? {
      MemberIs(p.kept, p.add.value);
      InsertedSorted(p.kept, p.add.value);
    }
    if !p.more { SortedUnique(Advertised(p), want); }
  }

  lemma MemberIs(s: seq<Dest>, d: Dest)
    ensures d in s <==> d in Elems(s)
  {
  }

  /** The distance that remains to be covered. */
  function Distance(have: seq<Dest>, want: seq<Dest>): nat { |SymDiff(Elems(have), Elems(want))| }

  /** Every message that is sent strictly reduces the distance; with room for a change in a message,
      nothing is sent only when nothing is left to say. */
  lemma UpdateProgresses(have: seq<Dest>, want: seq<Dest>, attrs: nat)
    requires Sorted(have) && Sorted(want)
    ensures var p := Update(have, want, attrs);
            && (p.withdrawn != [] || p.add.Some? ==> Distance(Advertised(p), want) < Distance(have, want))
            && (p.withdrawn == [] && p.add.None? && 2 < Limit(attrs) ==> !p.more && have == want)
  {
    UpdateIsCorrect(have, want, attrs);
    hide Sorted, Elems, Difference, Inserted;
    var p := Update(have, want, attrs);
    var before, after := SymDiff(Elems(have), Elems(want)), SymDiff(Elems(Advertised(p)), Elems(want));
    Empties();
    if p.withdrawn != [] {
      MemberIs(p.withdrawn, p.withdrawn[0]);
      Smaller(after, before, p.withdrawn[0]);
    } else if p.add.Some? {
      Smaller(after, before, p.add.value);
    } else {
      if 2 < Limit(attrs) {
        MoreSaysSomething(have, want, 2, Limit(attrs), None);
        SortedUnique(have, want);
      }
    }
  }

  lemma Smaller(a: set<Dest>, b: set<Dest>, d: Dest)
    requires a <= b && d in b && d !in a
    ensures |a| < |b|
  {
    assert a <= b - {d};
    SubsetSize(a, b - {d});
  }

  lemma {:induction false} SubsetSize(a: set<Dest>, b: set<Dest>)
    requires a <= b
    ensures |a| <= |b|
    decreases |a|
  {
    if a != {} {
      var x :| x in a;
      SubsetSize(a - {x}, b - {x});
    }
  }

  /** Repeated calls, as long as the flag asks for one. */
  function Converged(have: seq<Dest>, want: seq<Dest>, attrs: nat, calls: nat): (r: (seq<Dest>, bool))
    decreases calls
  {
    var p := Update(have, want, attrs);
    if !p.more || calls == 0 then (Advertised(p), p.more) else Converged(Advertised(p), want, attrs, calls - 1)
  }

  /** Convergence: within as many calls as there are differences, the flag is clear and the peer has
      been told exactly the wanted routes. */
  lemma {:induction false} Converges(have: seq<Dest>, want: seq<Dest>, attrs: nat, calls: nat)
    requires Sorted(have) && Sorted(want) && 2 < Limit(attrs) && Distance(have, want) <= calls
    ensures Converged(have, want, attrs, calls) == (want, false)
    decreases calls
  {
    hide Sorted, Elems, Difference, Inserted, Distance;
    var p := Update(have, want, attrs);
    UpdateIsCorrect(have, want, attrs);
    UpdateProgresses(have, want, attrs);
    if p.more {
      Converges(Advertised(p), want, attrs, calls - 1);
    }
  }

  // ---- the message ----

  /** The prefix byte by byte, most significant first. */
  function PrefixByte(d: Dest, i: nat): (b: Byte)
    requires i < 4
  {
    if i == 0 then d.prefix / 0x100_0000 else if i == 1 then d.prefix / 0x1_0000 % 0x100
    else if i == 2 then d.prefix / 0x100 % 0x100 else d.prefix % 0x100
  }

  /** A prefix on the wire: its length in bits and the bytes that hold them. */
  function Wire(d: Dest): (z: seq<Byte>)
    requires d.len <= 32
    ensures |z| == WireSize(d) && z[0] == d.len
  {
    [d.len] + seq(WireSize(d) - 1, i requires 0 <= i < WireSize(d) - 1 => PrefixByte(d, i))
  }

  ghost predicate Short(ds: seq<Dest>) { forall d :: d in ds ==> d.len <= 32 }

  function Wires(ds: seq<Dest>): seq<Byte>
    requires Short(ds)
  {
    if ds == [] then [] else Wires(ds[..|ds| - 1]) + Wire(ds[|ds| - 1])
  }

  const HEADER := 19
  const BGP_MSG_UPDATE: Byte := 2

  function Marker(): (z: seq<Byte>)
    ensures |z| == 16
  {
    seq(16, _ => 0xff)
  }

  /** What follows the withdrawals: the path attributes and the new prefix, or no attributes at all. */
  function Rest(p: Plan, attrs: seq<Byte>): seq<Byte>
    requires (p.add.Some? ==> p.add.value.len <= 32) && |attrs| < 0x1_0000
  {
    if p.add.Some? then Be16(|attrs|) + attrs + Wire(p.add.value) else Be16(0)
  }

  function Body(p: Plan, attrs: seq<Byte>): seq<Byte>
    requires Short(p.withdrawn) && (p.add.Some? ==> p.add.value.len <= 32)
    requires |Wires(p.withdrawn)| < 0x1_0000 && |attrs| < 0x1_0000
  {
    Be16(|Wires(p.withdrawn)|) + Wires(p.withdrawn) + Rest(p, attrs)
  }

  /** An UPDATE message, as in section 4.3 of RFC 1771. */
  function Message(p: Plan, attrs: seq<Byte>): seq<Byte>
    requires Short(p.withdrawn) && (p.add.Some? ==> p.add.value.len <= 32)
    requires |Wires(p.withdrawn)| < 0x1_0000 && |attrs| < 0x1_0000 && HEADER + |Body(p, attrs)| < 0x1_0000
  {
    Marker() + Be16(HEADER + |Body(p, attrs)|) + [BGP_MSG_UPDATE] + Body(p, attrs)
  }

  lemma Assemble(z: seq<Byte>, p: Plan, attrs: seq<Byte>)
    requires Short(p.withdrawn) && (p.add.Some? ==> p.add.value.len <= 32) && |attrs| < 0x1_0000
    requires HEADER + 2 <= |z| < 0x1_0000 && |Wires(p.withdrawn)| < 0x1_0000
    requires z[HEADER + 2..] == Wires(p.withdrawn) + Rest(p, attrs)
    requires z[..16] == Marker() && z[18] == BGP_MSG_UPDATE
    requires [z[16], z[17]] == Be16(|z|) && [z[19], z[20]] == Be16(|Wires(p.withdrawn)|)
    ensures HEADER + |Body(p, attrs)| < 0x1_0000 && z == Message(p, attrs)
  {
    hide Wires, Rest, Be16;
    var body := Body(p, attrs);
    assert z[HEADER..HEADER + 2] == [z[19], z[20]];
    assert z == z[..16] + [z[16], z[17]] + [z[18]] + ([z[19], z[20]] + z[HEADER + 2..]);
    assert body == [z[19], z[20]] + z[HEADER + 2..];
  }

  // ---- reading the message ----

  /** The prefixes listed in `z[q..end]`, each as its wire form; None when the list is cut short. */
  function Prefixes(z: seq<Byte>, q: nat, end: nat): Option<seq<seq<Byte>>>
    requires q <= end <= |z|
    decreases end - q
  {
    if q == end then Some([])
    else
      var n := 1 + z[q] / 8 + if z[q] % 8 != 0 then 1 else 0;
      if q + n > end then None
      else
        match Prefixes(z, q + n, end)
        case None => None
        case Some(rest) => Some([z[q..q + n]] + rest)
  }

  datatype Heard = Heard(withdrawn: seq<seq<Byte>>, reachable: seq<seq<Byte>>)

  /** An UPDATE as it is read: what it says of routes, and the path attributes of those it adds. */
  datatype Reading = Reading(heard: Heard, attrs: seq<Byte>)

  /** How a peer reads an UPDATE (section 4.3 of RFC 1771): a marker of ones, and every length field must match. */
  function Decode(z: seq<Byte>): Option<Reading> {
    if |z| < HEADER + 4 || (exists i :: 0 <= i < 16 && z[i] != 0xff) || Val16(z, 16) != |z| || z[18] != 2 then None
    else
      var w := HEADER + 2 + Val16(z, HEADER);
      if w + 2 > |z| then None
      else
        var a := w + 2 + Val16(z, w);
        if a > |z| then None
        else
          match (Prefixes(z, HEADER + 2, w), Prefixes(z, a, |z|))
          case (Some(out), Some(inn)) => Some(Reading(Heard(out, inn), z[w + 2..a]))
          case _ => None
  }

  function WireList(ds: seq<Dest>): (ws: seq<seq<Byte>>)
    requires Short(ds)
    ensures |ws| == |ds| && forall i :: 0 <= i < |ds| ==> ws[i] == Wire(ds[i])
  {
    seq(|ds|, i requires 0 <= i < |ds| => Wire(ds[i]))
  }

  lemma WiresBack(ds: seq<Dest>)
    requires Short(ds) && ds != []
    ensures Short(ds[..|ds| - 1]) && ds[|ds| - 1].len <= 32
    ensures Wires(ds) == Wires(ds[..|ds| - 1]) + Wire(ds[|ds| - 1])
  {
    assert ds[|ds| - 1] in ds;
  }

  lemma {:induction false} WiresFront(ds: seq<Dest>)
    requires Short(ds) && ds != []
    ensures Short(ds[1..]) && ds[0].len <= 32 && Wires(ds) == Wire(ds[0]) + Wires(ds[1..])
    decreases |ds|
  {
    hide Wires, Wire;
    assert ds[0] in ds;
    WiresBack(ds);
    if |ds| == 1 {
      NoPrefixes([], 0, ds[1..]);
      assert ds[1..] == [] && ds[..0] == [];
    } else {
      var front := ds[..|ds| - 1];
      WiresFront(front);
      WiresBack(ds[1..]);
      assert front[1..] == ds[1..][..|ds| - 2];
    }
  }

  lemma OnePrefix(z: seq<Byte>, q: nat, end: nat, d: Dest)
    requires d.len <= 32 && q + |Wire(d)| <= end <= |z| && z[q..q + |Wire(d)|] == Wire(d)
    ensures Prefixes(z, q, end) ==
            match Prefixes(z, q + |Wire(d)|, end)
            case None => None
            case Some(rest) => Some([Wire(d)] + rest)
  {
    hide Wire;
    assert z[q] == z[q..q + |Wire(d)|][0];
  }

  /** A list of prefixes is read back one by one. */
  lemma {:induction false} PrefixesOfWires(z: seq<Byte>, q: nat, ds: seq<Dest>)
    requires Short(ds) && q + |Wires(ds)| <= |z| && z[q..q + |Wires(ds)|] == Wires(ds)
    ensures Prefixes(z, q, q + |Wires(ds)|) == Some(WireList(ds))
    decreases |ds|
  {
    hide Prefixes, Wires, Wire;
    if ds == [] {
      NoPrefixes(z, q, ds);
    } else {
      WiresFront(ds);
      var t, w := Wires(ds), Wire(ds[0]);
      SubSlice(z, q, t, 0, |w|);
      SubSlice(z, q, t, |w|, |t|);
      PrefixesOfWires(z, q + |w|, ds[1..]);
      OnePrefix(z, q, q + |t|, ds[0]);
      assert WireList(ds) == [w] + WireList(ds[1..]);
    }
  }

  lemma NoPrefixes(z: seq<Byte>, q: nat, ds: seq<Dest>)
    requires ds == [] && q <= |z|
    ensures Short(ds) && Wires(ds) == [] && Prefixes(z, q, q) == Some([]) && WireList(ds) == []
  {
  }

  lemma Val16OfBe16(z: seq<Byte>, q: nat, x: nat)
    requires x < 0x1_0000 && q + 2 <= |z| && z[q..q + 2] == Be16(x)
    ensures Val16(z, q) == x
  {
    assert z[q] == z[q..q + 2][0] && z[q + 1] == z[q..q + 2][1];
  }

  ghost predicate Sendable(p: Plan, attrs: seq<Byte>) {
    && Short(p.withdrawn) && (p.add.Some? ==> p.add.value.len <= 32)
    && |Wires(p.withdrawn)| < 0x1_0000 && |attrs| < 0x1_0000 && HEADER + |Body(p, attrs)| < 0x1_0000
  }

  function Said(p: Plan): Heard
    requires Short(p.withdrawn) && (p.add.Some? ==> p.add.value.len <= 32)
  {
    Heard(WireList(p.withdrawn), if p.add.Some? then [Wire(p.add.value)] else [])
  }

  lemma OneWire(d: Dest)
    requires d.len <= 32
    ensures Short([d]) && Wires([d]) == Wire(d) && WireList([d]) == [Wire(d)]
  {
    assert [d][..0] == [];
  }

  /** The peer reads exactly the withdrawals and the addition that were meant, with the path attributes of what is
      added, and every length agrees. */
  lemma DecodeMessage(p: Plan, attrs: seq<Byte>)
    requires Sendable(p, attrs)
    ensures Decode(Message(p, attrs)) == Some(Reading(Said(p), if p.add.Some? then attrs else []))
  {
    hide Wires, Wire, WireList, Prefixes, Be16, Val16, Marker, Rest;
    var z := Message(p, attrs);
    var w, tail := Wires(p.withdrawn), Rest(p, attrs);
    var q := HEADER + 2 + |w|;
    assert z == Marker() + Be16(HEADER + |Body(p, attrs)|) + [BGP_MSG_UPDATE] + Be16(|w|) + w + tail;
    assert z[..16] == Marker();
    AllOnes(z);
    assert z[16..18] == Be16(HEADER + |Body(p, attrs)|);
    Val16OfBe16(z, 16, |z|);
    assert z[HEADER..HEADER + 2] == Be16(|w|);
    Val16OfBe16(z, HEADER, |w|);
    assert z[HEADER + 2..q] == w;
    PrefixesOfWires(z, HEADER + 2, p.withdrawn);
    assert z[q..] == tail;
    DecodeRest(z, q, p, attrs);
  }

  lemma AllOnes(z: seq<Byte>)
    requires |z| >= 16 && z[..16] == Marker()
    ensures forall i :: 0 <= i < 16 ==> z[i] == 0xff
  {
    assert forall i :: 0 <= i < 16 ==> z[i] == z[..16][i];
  }

  lemma DecodeRest(z: seq<Byte>, q: nat, p: Plan, attrs: seq<Byte>)
    requires (p.add.Some? ==> p.add.value.len <= 32) && |attrs| < 0x1_0000 && q <= |z| && z[q..] == Rest(p, attrs)
    ensures q + 2 <= |z| && q + 2 + Val16(z, q) <= |z|
    ensures Prefixes(z, q + 2 + Val16(z, q), |z|) == Some(if p.add.Some? then [Wire(p.add.value)] else [])
    ensures z[q + 2..q + 2 + Val16(z, q)] == if p.add.Some? then attrs else []
  {
    hide Wires, Wire, WireList, Prefixes, Be16, Val16;
    if p.add.Some? {
      var v := Wire(p.add.value);
      assert z[q..q + 2] == z[q..][..2] == Be16(|attrs|);
      Val16OfBe16(z, q, |attrs|);
      assert z[q + 2..q + 2 + |attrs|] == z[q..][2..2 + |attrs|] == attrs;
      assert z[q + 2 + |attrs|..q + 2 + |attrs| + |v|] == z[q..][2 + |attrs|..] == v;
      OneWire(p.add.value);
      PrefixesOfWires(z, q + 2 + |attrs|, [p.add.value]);
    } else {
      assert z[q..q + 2] == z[q..] == Be16(0);
      Val16OfBe16(z, q, 0);
      NoPrefixes(z, |z|, []);
    }
  }

  // ---- size ----

  lemma {:induction false} WithdrawnSize(have: seq<Dest>, want: seq<Dest>, used: nat, limit: int, add: Option<Dest>)
    requires Short(have)
    ensures var p := Difference(have, want, used, limit, add);
            Short(p.withdrawn) && (p.withdrawn != [] ==> used + |Wires(p.withdrawn)| < limit + PREFIX_STRUCT)
    decreases |have| + |want|
  {
    hide Wires, Wire;
    if have == [] && want == [] {
    } else if used >= limit {
    } else if have != [] && (want == [] || Less(have[0], want[0])) {
      assert have[0] in have;
      var p := Difference(have[1..], want, used + WireSize(have[0]), limit, add);
      WithdrawnSize(have[1..], want, used + WireSize(have[0]), limit, add);
      WiresFront([have[0]] + p.withdrawn);
      assert ([have[0]] + p.withdrawn)[1..] == p.withdrawn;
      if p.withdrawn == [] { NoPrefixes([], 0, p.withdrawn); }
    } else if have != [] && have[0] == want[0] {
      WithdrawnSize(have[1..], want[1..], used, limit, add);
    } else if add.Some? {
      if have != [] { WithdrawnSize(have, want[1..], used, limit, add); }
    } else {
      WithdrawnSize(have, want[1..], used, limit, Some(want[0]));
    }
  }

  /** A message that says something fits in 4096 bytes. */
  lemma MessageFits(have: seq<Dest>, want: seq<Dest>, attrs: seq<Byte>)
    requires Sorted(have) && Sorted(want) && Short(have) && Short(want)
    requires var p := Update(have, want, |attrs|); p.withdrawn != [] || p.add.Some?
    ensures var p := Update(have, want, |attrs|); Sendable(p, attrs) && |Message(p, attrs)| <= 4096
  {
    hide Wires, Wire, Difference, Sorted;
    var p := Update(have, want, |attrs|);
    WithdrawnSize(have, want, 2, Limit(|attrs|), None);
    DifferenceCorrect(have, want, 2, Limit(|attrs|), None);
    if p.add.Some? { MemberIs(want, p.add.value); }
    if 2 >= Limit(|attrs|) { LimitReached(have, want, 2, Limit(|attrs|)); }
    if p.withdrawn == [] { NoPrefixes([], 0, p.withdrawn); }
  }

  /** Beyond the limit nothing is said. */
  lemma LimitReached(have: seq<Dest>, want: seq<Dest>, used: nat, limit: int)
    requires used >= limit
    ensures var p := Difference(have, want, used, limit, None); p.withdrawn == [] && p.add.None?
  {
  }

  // ---- the peer's table ----

  /** What a peer makes of an UPDATE. */
  function Applied(table: set<seq<Byte>>, h: Heard): set<seq<Byte>> {
    table - (set w | w in h.withdrawn) + (set w | w in h.reachable)
  }

  function Remote(ds: seq<Dest>): set<seq<Byte>>
    requires Short(ds)
  {
    set w | w in WireList(ds)
  }

  /** The host bits of a route are clear, at least in the bytes that are not sent. */
  predicate Canonical(d: Dest) {
    d.len <= 32 && forall i :: WireSize(d) - 1 <= i < 4 ==> PrefixByte(d, i) == 0
  }

  ghost predicate AllCanonical(ds: seq<Dest>) { forall d :: d in ds ==> Canonical(d) }

  lemma PrefixIs(d: Dest)
    ensures d.prefix == 0x100_0000 * (PrefixByte(d, 0) as int) + 0x1_0000 * (PrefixByte(d, 1) as int) +
            0x100 * (PrefixByte(d, 2) as int) + (PrefixByte(d, 3) as int)
  {
    var x := d.prefix;
    assert x / 0x100_0000 == x / 0x1_0000 / 0x100 && x / 0x1_0000 == x / 0x100 / 0x100;
  }

  lemma WireByte(d: Dest, i: nat)
    requires d.len <= 32 && i < WireSize(d) - 1 <= 4
    ensures Wire(d)[1 + i] == PrefixByte(d, i)
  {
  }

  /** The route a peer makes of a prefix: the bytes that are left out are zero. */
  function RouteOf(w: seq<Byte>): Dest
    requires 1 <= |w| <= 5
  {
    var z := w[1..] + [0, 0, 0, 0];
    Dest(w[0], 0x100_0000 * (z[0] as int) + 0x1_0000 * (z[1] as int) + 0x100 * (z[2] as int) + z[3] as int)
  }

  /** For a canonical route it is the very route. */
  lemma ReadBack(d: Dest)
    requires Canonical(d)
    ensures RouteOf(Wire(d)) == d
  {
    hide PrefixByte;
    var w := Wire(d);
    var z := w[1..] + [0, 0, 0, 0];
    PrefixIs(d);
    forall i | 0 <= i < 4
      ensures z[i] == PrefixByte(d, i)
    {
      if i < |w| - 1 { WireByte(d, i); }
    }
  }

  /** Canonical routes are told apart on the wire. */
  lemma WireInjective(a: Dest, b: Dest)
    requires Canonical(a) && Canonical(b) && Wire(a) == Wire(b)
    ensures a == b
  {
    hide Wire, PrefixByte;
    assert a.len == b.len;
    forall i | 0 <= i < 4
      ensures PrefixByte(a, i) == PrefixByte(b, i)
    {
      if i < WireSize(a) - 1 { WireByte(a, i); WireByte(b, i); }
    }
    PrefixIs(a);
    PrefixIs(b);
  }

  lemma InRemote(ds: seq<Dest>, d: Dest)
    requires Short(ds) && d in ds
    ensures d.len <= 32 && Wire(d) in Remote(ds)
  {
    var i :| 0 <= i < |ds| && ds[i] == d;
    assert WireList(ds)[i] == Wire(d);
  }

  lemma FromRemote(ds: seq<Dest>, w: seq<Byte>) returns (d: Dest)
    requires Short(ds) && w in Remote(ds)
    ensures d in ds && d.len <= 32 && Wire(d) == w
  {
    var i :| 0 <= i < |ds| && WireList(ds)[i] == w;
    d := ds[i];
  }

  /** A withdrawal that would also take away a route that stays advertised. */
  ghost predicate Clash(p: Plan)
    requires Short(p.withdrawn) && Short(p.kept) && (p.add.Some? ==> p.add.value.len <= 32)
  {
    exists a, b :: a in p.withdrawn && b in p.kept && Wire(a) == Wire(b) &&
      (p.add.Some? ==> Wire(p.add.value) != Wire(b))
  }

  lemma ShortParts(have: seq<Dest>, want: seq<Dest>, attrs: nat)
    requires Sorted(have) && Sorted(want) && Short(have) && Short(want)
    ensures var p := Update(have, want, attrs);
            && Short(p.withdrawn) && Short(p.kept) && Short(Advertised(p)) && (p.add.Some? ==> p.add.value.len <= 32)
            && (forall d :: d in have <==> d in p.withdrawn || d in p.kept)
            && (forall d :: d in Advertised(p) <==> d in p.kept || p.add == Some(d))
            && (forall d :: d in p.withdrawn ==> d !in p.kept)
            && (p.add.Some? ==> p.add.value in want)
  {
    UpdateIsCorrect(have, want, attrs);
    DifferenceCorrect(have, want, 2, Limit(attrs), None);
    hide Difference, Sorted, Inserted, Position, Wire, SymDiff;
    var p := Update(have, want, attrs);
    forall d
      ensures d in have <==> d in p.withdrawn || d in p.kept
      ensures d in Advertised(p) <==> d in p.kept || p.add == Some(d)
      ensures d in p.withdrawn ==> d !in p.kept
      ensures p.add == Some(d) ==> d in want
    {
      MemberIs(have, d); MemberIs(want, d); MemberIs(p.withdrawn, d); MemberIs(p.kept, d); MemberIs(Advertised(p), d);
    }
  }

  /** Whatever the peer then has is advertised. */
  lemma ReplayWithin(have: seq<Dest>, want: seq<Dest>, attrs: nat, w: seq<Byte>)
    requires Sorted(have) && Sorted(want) && Short(have) && Short(want)
    ensures var p := Update(have, want, attrs);
            && Short(p.withdrawn) && Short(Advertised(p)) && (p.add.Some? ==> p.add.value.len <= 32)
            && (w in Applied(Remote(have), Said(p)) ==> w in Remote(Advertised(p)))
  {
    ShortParts(have, want, attrs);
    hide Difference, Sorted, Inserted, Position, Wire, Update, Advertised, WireList, Remote;
    var p := Update(have, want, attrs);
    SaidIs(p);
    if w in Applied(Remote(have), Said(p)) {
      if p.add.Some? && w == Wire(p.add.value) {
        InRemote(Advertised(p), p.add.value);
      } else {
        var d := FromRemote(have, w);
        if d in p.withdrawn { InRemote(p.withdrawn, d); }
        InRemote(Advertised(p), d);
      }
    }
  }

  /** And without a clash it has all that is. */
  lemma ReplayWhole(have: seq<Dest>, want: seq<Dest>, attrs: nat, w: seq<Byte>)
    requires Sorted(have) && Sorted(want) && Short(have) && Short(want)
    ensures var p := Update(have, want, attrs);
            && Short(p.withdrawn) && Short(p.kept) && Short(Advertised(p)) && (p.add.Some? ==> p.add.value.len <= 32)
            && (w in Remote(Advertised(p)) && !Clash(p) ==> w in Applied(Remote(have), Said(p)))
  {
    ShortParts(have, want, attrs);
    hide Difference, Sorted, Inserted, Position, Wire, Update, Advertised, WireList, Remote;
    var p := Update(have, want, attrs);
    SaidIs(p);
    if w in Remote(Advertised(p)) && !Clash(p) {
      var d := FromRemote(Advertised(p), w);
      if p.add != Some(d) {
        InRemote(have, d);
        if w in Remote(p.withdrawn) {
          var a := FromRemote(p.withdrawn, w);
        }
      }
    }
  }

  /** Replaying what was sent, the peer's table follows the list of advertised routes exactly when no
      withdrawal clashes with a route that stays. */
  lemma ReplayIff(have: seq<Dest>, want: seq<Dest>, attrs: nat)
    requires Sorted(have) && Sorted(want) && Short(have) && Short(want)
    ensures var p := Update(have, want, attrs);
            && Short(p.withdrawn) && Short(p.kept) && Short(Advertised(p)) && (p.add.Some? ==> p.add.value.len <= 32)
            && (Applied(Remote(have), Said(p)) == Remote(Advertised(p)) <==> !Clash(p))
  {
    ShortParts(have, want, attrs);
    hide Difference, Sorted, Inserted, Position, Wire, Update, Advertised, WireList, Remote, Said;
    var p := Update(have, want, attrs);
    var lhs, rhs := Applied(Remote(have), Said(p)), Remote(Advertised(p));
    if !Clash(p) {
      forall w
        ensures w in lhs <==> w in rhs
      {
        ReplayWithin(have, want, attrs, w);
        ReplayWhole(have, want, attrs, w);
      }
    } else {
      SaidIs(p);
      var a, b :| a in p.withdrawn && b in p.kept && Wire(a) == Wire(b) &&
        (p.add.Some? ==> Wire(p.add.value) != Wire(b));
      InRemote(p.withdrawn, a);
      InRemote(Advertised(p), b);
      assert Wire(b) !in lhs;
    }
  }

  lemma SaidIs(p: Plan)
    requires Short(p.withdrawn) && (p.add.Some? ==> p.add.value.len <= 32)
    ensures (set w | w in Said(p).withdrawn) == Remote(p.withdrawn)
    ensures (set w | w in Said(p).reachable) == if p.add.Some? then {Wire(p.add.value)} else {}
  {
  }

  /** For canonical routes, such as routeset registers, nothing ever clashes. */
  lemma CanonicalNeverClashes(have: seq<Dest>, want: seq<Dest>, attrs: nat)
    requires Sorted(have) && Sorted(want) && AllCanonical(have) && AllCanonical(want)
    ensures var p := Update(have, want, attrs);
            && AllCanonical(Advertised(p)) && Short(p.withdrawn) && (p.add.Some? ==> p.add.value.len <= 32)
            && Applied(Remote(have), Said(p)) == Remote(Advertised(p))
  {
    ShortParts(have, want, attrs);
    ReplayIff(have, want, attrs);
    hide Difference, Sorted, Inserted, Position, Wire, Update, Advertised, WireList, Remote;
    var p := Update(have, want, attrs);
    if Clash(p) {
      var a, b :| a in p.withdrawn && b in p.kept && Wire(a) == Wire(b);
      WireInjective(a, b);
      assert false;
    }
  }

  /** Lists the speaker may hold, of routes from `u`. */
  ghost predicate Within(ds: seq<Dest>, u: set<Dest>) { Sorted(ds) && Short(ds) && Elems(ds) <= u }

  /** After the message the peer's table is the advertised list. */
  ghost predicate Follows(have: seq<Dest>, want: seq<Dest>, attrs: nat)
    requires Sorted(have) && Sorted(want) && Short(have) && Short(want)
  {
    ShortParts(have, want, attrs);
    var p := Update(have, want, attrs);
    Applied(Remote(have), Said(p)) == Remote(Advertised(p))
  }

  /** No two routes share a wire form. */
  ghost predicate ToldApart(u: set<Dest>)
    requires forall d :: d in u ==> d.len <= 32
  {
    forall a, b :: a in u && b in u && Wire(a) == Wire(b) ==> a == b
  }

  /** The peer follows whatever is advertised and wanted of some routes, if and only if no two of them share a
      wire form. */
  lemma FollowsIff(u: set<Dest>)
    requires forall d :: d in u ==> d.len <= 32
    ensures (forall have, want, attrs: nat :: Within(have, u) && Within(want, u) ==> Follows(have, want, attrs)) <==>
            ToldApart(u)
  {
    hide Wire, Follows, Elems;
    if ToldApart(u) {
      forall have, want, attrs: nat | Within(have, u) && Within(want, u)
        ensures Follows(have, want, attrs)
      {
        ApartFollows(u, have, want, attrs);
      }
    } else {
      var a, b :| a in u && b in u && Wire(a) == Wire(b) && a != b;
      if Less(b, a) { a, b := b, a; }
      SharedWireClashes(a, b);
      assert Elems([a, b]) <= u && Elems([b]) <= u by { OfTwo(u, a, b); }
      assert Within([a, b], u) && Within([b], u);
    }
  }

  lemma OfTwo(u: set<Dest>, a: Dest, b: Dest)
    requires a in u && b in u
    ensures Elems([a, b]) <= u && Elems([b]) <= u
  {
  }

  lemma ApartFollows(u: set<Dest>, have: seq<Dest>, want: seq<Dest>, attrs: nat)
    requires (forall d :: d in u ==> d.len <= 32) && ToldApart(u) && Within(have, u) && Within(want, u)
    ensures Follows(have, want, attrs)
  {
    ShortParts(have, want, attrs);
    ReplayIff(have, want, attrs);
    hide Difference, Sorted, Inserted, Position, Wire, Update, Advertised, WireList, Remote, Elems;
    var p := Update(have, want, attrs);
    if Clash(p) {
      var a, b :| a in p.withdrawn && b in p.kept && Wire(a) == Wire(b);
      MemberIs(have, a);
      MemberIs(have, b);
      assert false;
    }
  }

  /** Withdrawing a route takes any other of the same wire form from the peer as well, which the advertiser still
      lists. */
  lemma SharedWireClashes(a: Dest, b: Dest)
    requires a.len <= 32 && b.len <= 32 && Less(a, b) && Wire(a) == Wire(b)
    ensures Update([a, b], [b], 0) == Plan([a], [b], None, false) && Clash(Plan([a], [b], None, false))
    ensures Sorted([a, b]) && Sorted([b]) && !Follows([a, b], [b], 0)
  {
    hide Wire;
    assert [a, b][1..] == [b] && [b][1..] == [];
    assert WireSize(a) <= 5;
    assert Difference([b], [b], 2 + WireSize(a), Limit(0), None) == Plan([], [b], None, false);
    assert Update([a, b], [b], 0) == Plan([a], [b], None, false);
    assert a in [a] && b in [b];
    ReplayIff([a, b], [b], 0);
  }

  /** So it is with 10.0.0.1/8 and 10.0.0.2/8, whose host bits reach into the bytes that are left out. */
  lemma HostBitsAreLost()
    ensures var a, b := Dest(8, 0x0a00_0001), Dest(8, 0x0a00_0002);
            Wire(a) == Wire(b) && Sorted([a, b]) && Sorted([b]) && !Follows([a, b], [b], 0)
  {
    var a, b := Dest(8, 0x0a00_0001), Dest(8, 0x0a00_0002);
    assert Wire(a) == [8, 10] == Wire(b);
    SharedWireClashes(a, b);
  }

  // ---- runs ----

  /** The registered routes and one peer: whether it gets routes at all, what it has been told, whether
      an UPDATE is due, and the table it has built from what it heard. */
  datatype Session = Session(wanted: seq<Dest>, routing: bool, routes: seq<Dest>, due: bool, table: set<seq<Byte>>)

  datatype Event = Register(d: Dest) | Withdraw(d: Dest) | Enable(on: bool) | Send | Restart

  function Want(s: Session): seq<Dest> { if s.routing then s.wanted else [] }

  /** bgp_add_route and bgp_del_route flag the peer only when the list changes; bgp_enable_routing and a
      session that comes up always do; bgp_clear forgets what the old session was told. */
  function Next(s: Session, e: Event, attrs: nat): Session
    requires AllCanonical(s.routes) && AllCanonical(s.wanted) && Sorted(s.routes) && Sorted(s.wanted)
  {
    match e
    case Register(d) => if d in s.wanted then s else s.(wanted := Inserted(s.wanted, d), due := true)
    case Withdraw(d) => if Removed(s.wanted, d) == s.wanted then s else s.(wanted := Removed(s.wanted, d), due := true)
    case Enable(on) => s.(routing := on, due := true)
    case Restart => s.(routes := [], table := {}, due := true)
    case Send =>
      if !s.due then s
      else
        CanonicalNeverClashes(s.routes, Want(s), attrs);
        var p := Update(s.routes, Want(s), attrs);
        s.(routes := Advertised(p), due := p.more, table := Applied(s.table, Said(p)))
  }

  /** What the peer has been told is what it knows, and unless an UPDATE is due that is what is wanted. */
  ghost predicate Inv(s: Session) {
    && Sorted(s.wanted) && Sorted(s.routes) && AllCanonical(s.wanted) && AllCanonical(s.routes)
    && s.table == Remote(s.routes)
    && (!s.due ==> s.routes == Want(s))
  }

  lemma NextKeepsInv(s: Session, e: Event, attrs: nat)
    requires Inv(s) && (e.Register? ==> Canonical(e.d))
    ensures Inv(Next(s, e, attrs))
  {
    hide Sorted, Inserted, Removed, Update, Canonical, Wire, Advertised, WireList;
    match e {
      case Register(d) => if d !in s.wanted { InsertedSorted(s.wanted, d); StillCanonical(s.wanted, d); }
      case Withdraw(d) => RemovedSorted(s.wanted, d); FewerCanonical(s.wanted, Removed(s.wanted, d));
      case Enable(on) =>
      case Restart => Empties(); assert Remote([]) == {} by { hide *; NothingRemote(); }
      case Send =>
        Empties();
        UpdateIsCorrect(s.routes, Want(s), attrs);
        CanonicalNeverClashes(s.routes, Want(s), attrs);
    }
  }

  lemma NothingRemote()
    ensures Short([]) && Remote([]) == {}
  {
  }

  lemma StillCanonical(s: seq<Dest>, d: Dest)
    requires AllCanonical(s) && Canonical(d)
    ensures AllCanonical(Inserted(s, d))
  {
    hide Canonical, Position;
  }

  lemma FewerCanonical(s: seq<Dest>, r: seq<Dest>)
    requires AllCanonical(s) && Elems(r) <= Elems(s)
    ensures AllCanonical(r)
  {
    hide Canonical;
    forall d | d in r
      ensures Canonical(d)
    {
      MemberIs(r, d);
      MemberIs(s, d);
    }
  }

  function After(s: Session, es: seq<Event>, attrs: nat): Session
    requires Inv(s) && forall e :: e in es && e.Register? ==> Canonical(e.d)
    decreases |es|
  {
    if es == [] then s else NextKeepsInv(s, es[0], attrs); After(Next(s, es[0], attrs), es[1..], attrs)
  }

  /** Over every run of registrations, withdrawals, suspensions, restarts and messages: the peer's table
      is exactly the advertised routes, and whenever no UPDATE is due it is exactly the wanted ones. */
  lemma {:induction false} PeerIsInStep(s: Session, es: seq<Event>, attrs: nat)
    requires Inv(s) && forall e :: e in es && e.Register? ==> Canonical(e.d)
    ensures var v := After(s, es, attrs);
            && AllCanonical(v.routes) && AllCanonical(v.wanted) && v.table == Remote(v.routes)
            && (!v.due ==> v.table == Remote(Want(v)))
    decreases |es|
  {
    hide Next, Remote, Canonical, Sorted;
    if es != [] {
      NextKeepsInv(s, es[0], attrs);
      PeerIsInStep(Next(s, es[0], attrs), es[1..], attrs);
    }
  }
}
