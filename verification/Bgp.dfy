/** The BGP code: sorted linked lists that are searched, relinked and freed in place, and an output
    buffer that withdrawals are written to as the lists are compared. */
module Bgp {
  import opened Common
  import opened BgpRoutes

  class Route {
    const dest: Dest
    var next: Route?

    constructor (dest: Dest)
      ensures this.dest == dest && next == null
    {
      this.dest, next := dest, null;
    }
  }

  function At(nodes: seq<Route>, i: nat): Route? { if i < |nodes| then nodes[i] else null }

  /** `head` starts a list of exactly `nodes`, each once. */
  ghost predicate IsList(head: Route?, nodes: seq<Route>)
    reads nodes
  {
    && head == At(nodes, 0)
    && (forall i :: 0 <= i < |nodes| ==> nodes[i].next == At(nodes, i + 1))
    && (forall i, j :: 0 <= i < j < |nodes| ==> nodes[i] != nodes[j])
  }

  function Dests(nodes: seq<Route>): (ds: seq<Dest>)
    ensures |ds| == |nodes| && forall i :: 0 <= i < |nodes| ==> ds[i] == nodes[i].dest
  {
    seq(|nodes|, i requires 0 <= i < |nodes| => nodes[i].dest)
  }

  lemma {:induction false} PositionIs(s: seq<Dest>, d: Dest, i: nat)
    requires i <= |s| && (forall j :: 0 <= j < i ==> Less(s[j], d)) && (i < |s| ==> !Less(s[i], d))
    ensures Position(s, d) == i
    decreases i
  {
    if i > 0 { PositionIs(s[1..], d, i - 1); }
  }

  ghost function Spliced(nodes: seq<Route>, i: nat, node: Route): (r: seq<Route>)
    requires i <= |nodes|
    ensures |r| == |nodes| + 1 && r[i] == node
    ensures forall j :: 0 <= j < i ==> r[j] == nodes[j]
    ensures forall j :: i < j < |r| ==> r[j] == nodes[j - 1]
  {
    nodes[..i] + [node] + nodes[i..]
  }

  lemma SplicedIs(nodes: seq<Route>, i: nat, node: Route)
    requires i <= |nodes| && i == Position(Dests(nodes), node.dest)
    ensures Dests(Spliced(nodes, i, node)) == Inserted(Dests(nodes), node.dest)
  {
    hide Position, Spliced;
    var l, r := Dests(Spliced(nodes, i, node)), Inserted(Dests(nodes), node.dest);
    forall j | 0 <= j < |l|
      ensures l[j] == r[j]
    {
      if j > i { assert Spliced(nodes, i, node)[j] == nodes[j - 1]; }
    }
  }

  lemma SplicedMembers(nodes: seq<Route>, i: nat, node: Route)
    requires i <= |nodes|
    ensures forall n :: n in Spliced(nodes, i, node) <==> n in nodes || n == node
  {
    assert nodes == nodes[..i] + nodes[i..];
  }

  /** The end of bgp_insert_route: `node` goes behind `e`, or in front of everything. */
  method LinkIn(head: Route?, e: Route?, node: Route, ghost nodes: seq<Route>, ghost i: nat) returns (head': Route?)
    requires IsList(head, nodes) && node !in nodes && i <= |nodes|
    requires e == if i > 0 then nodes[i - 1] else null
    modifies nodes, node
    ensures IsList(head', Spliced(nodes, i, node))
  {
    hide Spliced;
    if e != null {
      node.next := e.next;
      e.next := node;
      head' := head;
    } else {
      node.next := head;
      head' := node;
    }
  }

  /** bgp_insert_route: `node` is linked in before the first entry that is not smaller. */
  method InsertRoute(head: Route?, node: Route, ghost nodes: seq<Route>) returns (head': Route?,
      ghost nodes': seq<Route>)
    requires IsList(head, nodes) && node !in nodes
    modifies nodes, node
    ensures IsList(head', nodes') && Dests(nodes') == Inserted(Dests(nodes), node.dest)
    ensures forall n :: n in nodes' <==> n in nodes || n == node
  {
    hide Less, IsList, Spliced, Inserted, Position;
    var p, e: Route? := head, null;
    ghost var i := 0;
    HeadIs(head, nodes);
    while p != null && Less(p.dest, node.dest)
      invariant i <= |nodes| && p == At(nodes, i) && e == (if i > 0 then nodes[i - 1] else null)
      invariant forall j :: 0 <= j < i ==> Less(nodes[j].dest, node.dest)
      decreases |nodes| - i
    {
      e, p := p, NextOf(head, nodes, i, p);
      i := i + 1;
    }
    PositionIs(Dests(nodes), node.dest, i);
    SplicedIs(nodes, i, node);
    nodes' := Spliced(nodes, i, node);
    head' := LinkIn(head, e, node, nodes, i);
    SplicedMembers(nodes, i, node);
  }

  ghost function Cut(nodes: seq<Route>, i: nat): (r: seq<Route>)
    requires i < |nodes|
    ensures |r| == |nodes| - 1
    ensures forall j :: 0 <= j < i ==> r[j] == nodes[j]
    ensures forall j :: i <= j < |r| ==> r[j] == nodes[j + 1]
    ensures forall n :: n in r ==> n in nodes
  {
    nodes[..i] + nodes[i + 1..]
  }

  lemma CutDests(nodes: seq<Route>, i: nat)
    requires i < |nodes|
    ensures Dests(Cut(nodes, i)) == Dests(nodes)[..i] + Dests(nodes)[i + 1..]
  {
  }

  /** A route is taken out of the list: the entry before it, or the head, now leads past it. */
  method Unlink(head: Route?, e: Route?, ghost nodes: seq<Route>, ghost i: nat, after: Route?) returns (head': Route?)
    requires IsList(head, nodes) && i < |nodes| && after == nodes[i].next
    requires e == if i > 0 then nodes[i - 1] else null
    modifies if e == null then {} else {e}
    ensures IsList(head', Cut(nodes, i)) && At(Cut(nodes, i), i) == after
  {
    head' := head;
    if e != null {
      e.next := after;
    } else {
      head' := after;
    }
  }

  lemma RemovedAt(ds: seq<Dest>, d: Dest)
    ensures var i := Position(ds, d);
            Removed(ds, d) == if i < |ds| && ds[i] == d then ds[..i] + ds[i + 1..] else ds
  {
    hide Position;
  }

  /** In a sorted list a search may stop at the first larger entry. */
  lemma NotBefore(ds: seq<Dest>, d: Dest, i: nat)
    requires Sorted(ds) && i <= |ds| && (forall j :: 0 <= j < i ==> ds[j] != d)
    requires i < |ds| ==> Less(d, ds[i])
    ensures d !in ds
  {
    forall j | 0 <= j < |ds|
      ensures ds[j] != d
    {
      if j > i { assert Less(ds[i], ds[j]); }
    }
  }

  // ---- messages ----

  lemma Fits(ds: seq<Dest>, i: nat)
    requires Short(ds) && i < |ds|
    ensures ds[i].len <= 32 && |Wire(ds[i])| == WireSize(ds[i]) <= PREFIX_STRUCT
  {
  }

  lemma WithdrawnMore(wd: seq<Dest>, d: Dest)
    requires Short(wd) && d.len <= 32
    ensures Short(wd + [d]) && Wires(wd + [d]) == Wires(wd) + Wire(d)
  {
    assert (wd + [d])[..|wd|] == wd;
  }

  function Chosen(add: Route?): Option<Dest> { if add == null then None else Some(add.dest) }

  class Peer {
    var routes: Route?
    ghost var nodes: seq<Route>
    var routing: bool
    var due: bool
    var established: bool
    const outbuf: array<Byte>
    const attrs: seq<Byte>

    ghost predicate Valid()
      reads this, nodes
    {
      && IsList(routes, nodes) && Sorted(Dests(nodes)) && Short(Dests(nodes))
      && outbuf.Length == 4096 && |attrs| < 0x1_0000
    }

    /** bgp_clear, as far as the routes are concerned. */
    method Clear()
      requires outbuf.Length == 4096 && |attrs| < 0x1_0000
      modifies this`routes, this`nodes
      ensures Valid() && nodes == []
    {
      routes, nodes := null, [];
    }

    /** One withdrawal: the route is written to the buffer and freed. */
    method Withdraw(e: Route?, tmp: Route, q: nat, ghost i: nat) returns (q': nat)
      requires IsList(routes, nodes) && Short(Dests(nodes)) && i < |nodes| && tmp == nodes[i]
      requires e == if i > 0 then nodes[i - 1] else null
      requires q + PREFIX_STRUCT <= outbuf.Length
      modifies this`routes, this`nodes, if e == null then {} else {e}, outbuf
      ensures nodes == Cut(old(nodes), i) && IsList(routes, nodes) && At(nodes, i) == old(tmp.next)
      ensures Dests(nodes) == old(Dests(nodes))[..i] + old(Dests(nodes))[i + 1..] && Short(Dests(nodes))
      ensures tmp.dest.len <= 32 && q' == q + WireSize(tmp.dest) && q' <= outbuf.Length
      ensures outbuf[..q'] == old(outbuf[..q]) + Wire(tmp.dest)
    {
      hide Wire, WireSize, IsList;
      Fits(Dests(nodes), i);
      CutDests(nodes, i);
      var have := NextOf(routes, nodes, i, tmp);
      q' := Append(outbuf, q, Wire(tmp.dest));
      routes := Unlink(routes, e, nodes, i, have);
      nodes := Cut(nodes, i);
    }

    /** The loop of bgp_send_update: walks both lists, takes unwanted routes out of this peer's list and
        writes their withdrawals to the buffer from `q0` on, and picks one route to add. */
    method FindDifferences(want0: Route?, ghost wn: seq<Route>, q0: nat, limit: int)
      returns (q: nat, add: Route?, more: bool, ghost p: Plan)
      requires Valid() && IsList(want0, wn) && (forall n :: n in wn ==> n !in nodes)
      requires q0 >= 2 && limit + PREFIX_STRUCT + q0 - 2 <= outbuf.Length && q0 <= outbuf.Length
      modifies this`routes, this`nodes, nodes, outbuf
      ensures p == Difference(old(Dests(nodes)), Dests(wn), 2, limit, None)
      ensures IsList(routes, nodes) && Dests(nodes) == p.kept && (forall n :: n in nodes ==> n in old(nodes))
      ensures Chosen(add) == p.add && more == p.more
      ensures Short(p.withdrawn) && q == q0 + |Wires(p.withdrawn)| && q <= outbuf.Length
      ensures outbuf[..q] == old(outbuf[..q0]) + Wires(p.withdrawn)
    {
      hide Difference, Wires, Wire, Short, Tracks, WireSize, IsList, Sorted, Less, Cut, Dests;
      q, add, more := q0, null, false;
      var have, want, e: Route? := routes, want0, null;
      ghost var i, j, wd, ws := 0, 0, [], Dests(wn);
      HeadIs(routes, nodes);
      HeadIs(want0, wn);
      p := Difference(Dests(nodes), ws, 2, limit, None);
      TracksStart(Dests(nodes), ws, limit);
      NoPrefixes([], 0, wd);
      while (have != null || want != null) && q - q0 + 2 < limit
        invariant IsList(routes, nodes) && (forall n :: n in nodes ==> n in old(nodes))
        invariant i <= |nodes| && have == At(nodes, i) && e == (if i > 0 then nodes[i - 1] else null)
        invariant j <= |wn| && want == At(wn, j) && IsList(want0, wn)
        invariant Short(wd) && Short(Dests(nodes)) && q0 <= q == q0 + |Wires(wd)| <= outbuf.Length
        invariant outbuf[..q] == old(outbuf[..q0]) + Wires(wd)
        invariant Tracks(p, wd, Dests(nodes), i, ws, j, q - q0 + 2, limit, Chosen(add), more)
        decreases |nodes| - i + |wn| - j
      {
        ghost var ds := Dests(nodes);
        var s := if have == null then 1 else if want == null then -1 else Compare(have.dest, want.dest);
        if s < 0 {
          TrackWithdrawn(p, wd, ds, i, ws, j, q - q0 + 2, limit, Chosen(add), more);
          var tmp := have;
          have := NextOf(routes, nodes, i, have);
          assert e != null ==> e in nodes;
          q := Withdraw(e, tmp, q, i);
          WithdrawnMore(wd, tmp.dest);
          wd := wd + [tmp.dest];
        } else if s == 0 {
          TrackKept(p, wd, ds, i, ws, j, q - q0 + 2, limit, Chosen(add), more);
          e, have, want := have, NextOf(routes, nodes, i, have), NextOf(want0, wn, j, want);
          i, j := i + 1, j + 1;
        } else {
          if have != null { Flip(have.dest, want.dest); }
          TrackWanted(p, wd, ds, i, ws, j, q - q0 + 2, limit, Chosen(add), more);
          if add != null {
            more := true;
            if have == null { return; }
          } else {
            add := want;
          }
          want := NextOf(want0, wn, j, want);
          j := j + 1;
        }
      }
      TrackDone(p, wd, Dests(nodes), i, ws, j, q - q0 + 2, limit, Chosen(add), more);
      if have != null || want != null { more := true; }
    }

    /** The end of bgp_send_update: attributes and the new prefix go behind the withdrawals, and the two
        lengths that were left open are filled in. */
    method Finish(q: nat, add: Route?, ghost p: Plan) returns (sent: Option<seq<Byte>>)
      requires outbuf.Length == 4096 && HEADER + 2 <= q <= 4096 && Chosen(add) == p.add
      requires Sendable(p, attrs) && |Message(p, attrs)| <= 4096
      requires outbuf[HEADER + 2..q] == Wires(p.withdrawn) && outbuf[..16] == Marker() && outbuf[18] == BGP_MSG_UPDATE
      modifies outbuf
      ensures sent == Some(Message(p, attrs))
    {
      hide Wires, Wire, Short, Be16, Marker;
      ghost var w := Wires(p.withdrawn);
      outbuf[19], outbuf[20] := Be16(q - (HEADER + 2))[0], Be16(q - (HEADER + 2))[1];
      ghost var written := outbuf[..q];
      assert written[HEADER + 2..] == w && written[..16] == Marker();
      var end := PutRest(q, add, p);
      outbuf[16], outbuf[17] := Be16(end)[0], Be16(end)[1];
      ghost var z := outbuf[..end];
      assert z[18] == written[18] && [z[19], z[20]] == Be16(|w|) && [z[16], z[17]] == Be16(end);
      assert z[..16] == written[..16];
      assert z[HEADER + 2..] == w + Rest(p, attrs);
      Assemble(z, p, attrs);
      return Some(outbuf[..end]);
    }

    method PutRest(q: nat, add: Route?, ghost p: Plan) returns (end: nat)
      requires Chosen(add) == p.add && |attrs| < 0x1_0000 && (p.add.Some? ==> p.add.value.len <= 32)
      requires q + |Rest(p, attrs)| <= outbuf.Length
      modifies outbuf
      ensures end == q + |Rest(p, attrs)| && outbuf[..end] == old(outbuf[..q]) + Rest(p, attrs)
    {
      hide Wire, Be16;
      if add != null {
        end := Append(outbuf, q, Be16(|attrs|));
        end := Append(outbuf, end, attrs);
        end := Append(outbuf, end, Wire(add.dest));
        assert outbuf[..end] == old(outbuf[..q]) + (Be16(|attrs|) + attrs + Wire(add.dest));
      } else {
        end := Append(outbuf, q, Be16(0));
      }
    }

    /** The start of every UPDATE. */
    method Begin()
      requires outbuf.Length == 4096
      modifies outbuf
      ensures outbuf[..HEADER + 2][..16] == Marker() && outbuf[18] == BGP_MSG_UPDATE
    {
      hide Marker;
      var q := Append(outbuf, 0, Marker());
      assert outbuf[..16] == Marker();
      outbuf[18] := BGP_MSG_UPDATE;
      assert outbuf[..HEADER + 2][..16] == outbuf[..16];
    }

    /** The chosen route is copied into the list of advertised ones. */
    method Advertise(dest: Dest)
      requires IsList(routes, nodes)
      modifies this`routes, this`nodes, nodes
      ensures IsList(routes, nodes) && Dests(nodes) == Inserted(old(Dests(nodes)), dest)
      ensures fresh(set n | n in nodes && n !in old(nodes))
    {
      hide IsList, Inserted;
      var node := new Route(dest);
      routes, nodes := InsertRoute(routes, node, nodes);
    }

    /** The end of bgp_send_update: the chosen route is advertised, and the message goes out if it says anything. */
    method Say(q: nat, add: Route?, ghost p: Plan, ghost have: seq<Dest>, ghost want: seq<Dest>)
      returns (sent: Option<seq<Byte>>)
      requires IsList(routes, nodes) && Dests(nodes) == p.kept && outbuf.Length == 4096 && |attrs| < 0x1_0000
      requires Sorted(have) && Sorted(want) && Short(have) && Short(want) && p == Update(have, want, |attrs|)
      requires Short(p.withdrawn) && Chosen(add) == p.add && q == HEADER + 2 + |Wires(p.withdrawn)| <= 4096
      requires outbuf[HEADER + 2..q] == Wires(p.withdrawn) && outbuf[..16] == Marker() && outbuf[18] == BGP_MSG_UPDATE
      modifies this`routes, this`nodes, nodes, outbuf
      ensures IsList(routes, nodes) && Dests(nodes) == Advertised(p) && fresh(set n | n in nodes && n !in old(nodes))
      ensures p.withdrawn == [] && p.add.None? ==> sent == None
      ensures p.withdrawn != [] || p.add.Some? ==> Sendable(p, attrs) && sent == Some(Message(p, attrs))
    {
      hide Wires, IsList, Sorted, Short, Inserted, Marker, Message, Dests, Update;
      SaysNothing(p.withdrawn);
      if q == HEADER + 2 && add == null { return None; }
      MessageFits(have, want, attrs);
      if add != null { Advertise(add.dest); }
      sent := Finish(q, add, p);
    }

    /** bgp_send_update, with a peer that takes the whole message at once. */
    method SendUpdate(registered: Route?, ghost rn: seq<Route>) returns (sent: Option<seq<Byte>>)
      requires Valid() && IsList(registered, rn) && Sorted(Dests(rn)) && Short(Dests(rn))
      requires forall n :: n in rn ==> n !in nodes
      modifies this`routes, this`nodes, this`due, nodes, outbuf
      ensures Valid() && fresh(set n | n in nodes && n !in old(nodes))
      ensures var want := if routing then Dests(rn) else [];
              var p := Update(old(Dests(nodes)), want, |attrs|);
              && Dests(nodes) == Advertised(p) && due == p.more
              && (p.withdrawn == [] && p.add.None? ==> sent == None)
              && (p.withdrawn != [] || p.add.Some? ==> Sendable(p, attrs) && sent == Some(Message(p, attrs)))
    {
      hide Difference, Wires, IsList, Sorted, Short, Advertised, Marker, Message, Sendable, Dests;
      Begin();
      ghost var have, wn := Dests(nodes), if routing then rn else [];
      var want := if routing then registered else null;
      NoList();
      EmptySorted();
      due := false;
      var q, add, more;
      ghost var p;
      ghost var start := outbuf[..HEADER + 2];
      q, add, more, p := FindDifferences(want, wn, HEADER + 2, Limit(|attrs|));
      Written(outbuf[..q], start, Wires(p.withdrawn));
      KeptSorted(have, Dests(wn), |attrs|);
      if more { due := true; }
      assert forall i :: 0 <= i < |nodes| ==> nodes[i] in old(nodes);
      sent := Say(q, add, p, have, Dests(wn));
    }
  }

  /** Flags the peers whose session is up: they are due an UPDATE. */
  method Flag(peers: seq<Peer>)
    modifies peers`due
    ensures forall p :: p in peers ==> p.due == (old(p.due) || p.established)
  {
    var i := 0;
    while i < |peers|
      invariant 0 <= i <= |peers|
      invariant forall p :: p in peers ==> p.due == (old(p.due) || (p.established && p in peers[..i]))
    {
      if peers[i].established { peers[i].due := true; }
      assert peers[..i + 1] == peers[..i] + [peers[i]];
      i := i + 1;
    }
  }

  /** The registered routes, and the peers they are announced to. */
  class Speaker {
    var routes: Route?
    ghost var nodes: seq<Route>
    const peers: seq<Peer>

    ghost predicate Valid()
      reads this, nodes
    {
      IsList(routes, nodes) && Sorted(Dests(nodes))
    }

    /** bgp_add_route: a new route is linked in and flagged; one that is registered changes nothing. */
    method AddRoute(dest: Dest)
      requires Valid()
      modifies this`routes, this`nodes, nodes, peers`due
      ensures Valid() && Dests(nodes) == Added(old(Dests(nodes)), dest)
      ensures fresh(set n | n in nodes && n !in old(nodes))
      ensures forall p :: p in peers ==> p.due == (old(p.due) || (p.established && dest !in old(Dests(nodes))))
    {
      hide Inserted, Sorted, IsList;
      AddedSorted(Dests(nodes), dest);
      var r := routes;
      HeadIs(routes, nodes);
      ghost var i, ds := 0, Dests(nodes);
      while r != null
        invariant i <= |nodes| && r == At(nodes, i)
        invariant forall j :: 0 <= j < i ==> ds[j] != dest
        decreases |nodes| - i
      {
        var c := Compare(r.dest, dest);
        if c == 0 {
          assert ds[i] == dest;
          return;
        }
        if c > 0 { break; }
        r := NextOf(routes, nodes, i, r);
        i := i + 1;
      }
      NotBefore(ds, dest, i);
      var node := new Route(dest);
      routes, nodes := InsertRoute(routes, node, nodes);
      Flag(peers);
    }

    /** A route is unlinked and freed. */
    method Drop(e: Route?, r: Route, ghost i: nat)
      requires IsList(routes, nodes) && i < |nodes| && nodes[i] == r && e == if i > 0 then nodes[i - 1] else null
      modifies this`routes, this`nodes, if e == null then {} else {e}
      ensures IsList(routes, nodes) && Dests(nodes) == old(Dests(nodes))[..i] + old(Dests(nodes))[i + 1..]
      ensures forall n :: n in nodes ==> n in old(nodes)
    {
      hide IsList;
      CutDests(nodes, i);
      var after := NextOf(routes, nodes, i, r);
      routes := Unlink(routes, e, nodes, i, after);
      nodes := Cut(nodes, i);
    }

    /** bgp_del_route: a registered route is unlinked and freed, and peers flagged. */
    method DelRoute(dest: Dest)
      requires Valid()
      modifies this`routes, this`nodes, nodes, peers`due
      ensures Valid() && Dests(nodes) == Removed(old(Dests(nodes)), dest) && forall n :: n in nodes ==> n in old(nodes)
      ensures forall p :: p in peers ==> p.due == (old(p.due) || (p.established && dest in old(Dests(nodes))))
    {
      hide Position, Sorted, IsList, Removed, Elems;
      RemovedSorted(Dests(nodes), dest);
      var r, e: Route? := routes, null;
      HeadIs(routes, nodes);
      ghost var i, ds := 0, Dests(nodes);
      while r != null
        invariant i <= |nodes| && r == At(nodes, i) && e == (if i > 0 then nodes[i - 1] else null)
        invariant forall j :: 0 <= j < i ==> Less(ds[j], dest)
        decreases |nodes| - i
      {
        var c := Compare(r.dest, dest);
        if c == 0 {
          PositionIs(ds, dest, i);
          RemovedAt(ds, dest);
          assert ds[i] == dest;
          Drop(e, r, i);
          Flag(peers);
          return;
        }
        if c > 0 { break; }
        e, r := r, NextOf(routes, nodes, i, r);
        i := i + 1;
      }
      PositionIs(ds, dest, i);
      RemovedAt(ds, dest);
      NotBefore(ds, dest, i);
    }

    /** bgp_enable_routing: all routes are withdrawn from the peers, or announced again. */
    method EnableRouting(enable: bool)
      modifies peers`routing, peers`due
      ensures forall p :: p in peers ==> p.routing == enable && p.due == (old(p.due) || p.established)
    {
      var i := 0;
      while i < |peers|
        invariant 0 <= i <= |peers|
        invariant forall p :: p in peers ==> p.due == (old(p.due) || (p.established && p in peers[..i]))
        invariant forall j :: 0 <= j < i ==> peers[j].routing == enable
      {
        peers[i].routing := enable;
        if peers[i].established { peers[i].due := true; }
        assert peers[..i + 1] == peers[..i] + [peers[i]];
        i := i + 1;
      }
    }
  }

  lemma Written(z: seq<Byte>, start: seq<Byte>, w: seq<Byte>)
    requires z == start + w && |start| == HEADER + 2
    ensures z[..16] == start[..16] && z[18] == start[18] && z[HEADER + 2..] == w
  {
  }

  lemma NoList()
    ensures IsList(null, []) && Dests([]) == []
  {
  }

  lemma EmptySorted()
    ensures Sorted([]) && Short([])
  {
  }

  lemma SaysNothing(wd: seq<Dest>)
    requires Short(wd)
    ensures |Wires(wd)| == 0 <==> wd == []
  {
    if wd != [] { WiresBack(wd); }
  }

  lemma KeptSorted(have: seq<Dest>, want: seq<Dest>, attrs: nat)
    requires Sorted(have) && Sorted(want) && Short(have) && Short(want)
    ensures var p := Update(have, want, attrs);
            Sorted(Advertised(p)) && Short(Advertised(p)) && (p.add.Some? ==> p.add.value.len <= 32)
  {
    UpdateIsCorrect(have, want, attrs);
    ShortParts(have, want, attrs);
  }

  lemma TracksStart(have: seq<Dest>, want: seq<Dest>, limit: int)
    ensures Tracks(Difference(have, want, 2, limit, None), [], have, 0, want, 0, 2, limit, None, false)
  {
    hide Difference;
    assert have[0..] == have && want[0..] == want;
  }

  lemma Flip(a: Dest, b: Dest)
    ensures Compare(a, b) > 0 ==> Less(b, a)
  {
  }

  lemma HeadIs(head: Route?, nodes: seq<Route>)
    requires IsList(head, nodes)
    ensures head == At(nodes, 0)
  {
  }

  function NextOf(head: Route?, ghost nodes: seq<Route>, ghost i: nat, r: Route): (n: Route?)
    requires IsList(head, nodes) && i < |nodes| && nodes[i] == r
    reads nodes, r
    ensures n == At(nodes, i + 1) == r.next
  {
    r.next
  }
}
