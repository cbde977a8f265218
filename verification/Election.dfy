/** Which cluster node becomes the master, and which of several masters survives. */
module Election {
  import opened Common

  // ---- the election among slaves ----

  datatype Peer = Peer(addr: U32, basetime: U32, timestamp: int, uptodate: bool)

  /** What a node announces: its address and when it started (0 when it is shutting down). */
  datatype Candidate = Candidate(addr: U32, basetime: U32)

  /** The older node is preferred, then the higher address. */
  predicate Better(x: Candidate, y: Candidate) {
    x.basetime < y.basetime || (x.basetime == y.basetime && x.addr > y.addr)
  }

  /** A peer that still counts: heard from within the timeout and not shutting down. */
  predicate Counts(p: Peer, now: int, timeout: int) {
    p.timestamp + timeout >= now && p.basetime != 0
  }

  predicate Passes(me: Candidate, peers: seq<Peer>, now: int, timeout: int) {
    forall i :: 0 <= i < |peers| && Counts(peers[i], now, timeout) ==>
      !Better(Candidate(peers[i].addr, peers[i].basetime), me)
  }

  /** The peers an elected master counts as holding a full copy of the tables. */
  function Ready(peers: seq<Peer>, now: int, timeout: int): nat {
    if peers == [] then 0
    else
      var n, p := Ready(peers[..|peers| - 1], now, timeout), peers[|peers| - 1];
      if Counts(p, now, timeout) && p.uptodate then n + 1 else n
  }

  /** The places in the table of peers that still count and hold a full copy. */
  ghost function ReadyAt(peers: seq<Peer>, now: int, timeout: int): set<int> {
    set i |
      0 <= i < |peers| && peers[i].timestamp + timeout >= now && peers[i].basetime != 0 && peers[i].uptodate
  }

  lemma {:induction false} ReadyIs(peers: seq<Peer>, now: int, timeout: int)
    ensures Ready(peers, now, timeout) == |ReadyAt(peers, now, timeout)|
    decreases |peers|
  {
    if peers == [] {
      assert ReadyAt(peers, now, timeout) == {};
    } else {
      var n := |peers| - 1;
      var at, before := ReadyAt(peers, now, timeout), ReadyAt(peers[..n], now, timeout);
      ReadyIs(peers[..n], now, timeout);
      if Counts(peers[n], now, timeout) && peers[n].uptodate {
        assert at == before + {n};
      } else {
        assert at == before;
      }
    }
  }

  /** The loop of cluster_check_master over the peer table: it is won when every peer heard from in time and not
      shutting down is younger, or as old with an address no higher. */
  method HoldElection(me: Candidate, peers: seq<Peer>, now: int, timeout: int) returns (won: bool, ready: nat)
    ensures won == Passes(me, peers, now, timeout)
    ensures won <==> forall i :: 0 <= i < |peers| && peers[i].timestamp + timeout >= now && peers[i].basetime != 0 ==>
              me.basetime < peers[i].basetime || (me.basetime == peers[i].basetime && peers[i].addr <= me.addr)
    ensures won ==> ready == |ReadyAt(peers, now, timeout)|
  {
    won, ready := true, 0;
    ReadyIs(peers, now, timeout);
    var i := 0;
    while i < |peers|
      invariant 0 <= i <= |peers|
      invariant ready == Ready(peers[..i], now, timeout)
      invariant forall j :: 0 <= j < i && Counts(peers[j], now, timeout) ==>
        !Better(Candidate(peers[j].addr, peers[j].basetime), me)
    {
      assert peers[..i + 1][..i] == peers[..i];
      if peers[i].timestamp + timeout < now || peers[i].basetime == 0 {
        i := i + 1;
        continue;
      }
      if peers[i].basetime < me.basetime { return false, ready; }
      if peers[i].basetime == me.basetime && peers[i].addr > me.addr { return false, ready; }
      if peers[i].uptodate { ready := ready + 1; }
      i := i + 1;
    }
    assert peers[..i] == peers;
  }

  /** The nodes a peer table says are there. */
  function Known(peers: seq<Peer>, now: int, timeout: int): set<Candidate> {
    set p | p in peers && Counts(p, now, timeout) :: Candidate(p.addr, p.basetime)
  }

  ghost predicate IsBest(best: Candidate, nodes: set<Candidate>) {
    best in nodes && forall x :: x in nodes && x != best ==> Better(best, x)
  }

  lemma {:induction false} BestExists(nodes: set<Candidate>) returns (best: Candidate)
    requires nodes != {}
    requires forall x, y :: x in nodes && y in nodes && x.addr == y.addr ==> x == y
    ensures IsBest(best, nodes)
    decreases |nodes|
  {
    var x :| x in nodes;
    var rest := nodes - {x};
    if rest == {} {
      best := x;
      assert forall y :: y in nodes ==> y == x || y in rest;
    } else {
      var b := BestExists(rest);
      best := if Better(x, b) then x else b;
      forall y | y in nodes && y != best
        ensures Better(best, y)
      {
        if y != x { assert y in rest; }
      }
    }
  }

  /** The oldest node, and of several as old as that the one with the highest address. */
  ghost predicate OldestHighest(w: Candidate, nodes: set<Candidate>) {
    w in nodes && forall x :: x in nodes ==>
      w.basetime <= x.basetime && (x.basetime == w.basetime ==> x.addr <= w.addr)
  }

  /** When every node knows exactly the others, exactly one of them passes the election: the oldest, or of several as
      old the one with the highest address. */
  lemma UniqueWinner(nodes: set<Candidate>, tables: map<Candidate, seq<Peer>>, now: int, timeout: int)
    requires nodes != {} && tables.Keys == nodes
    requires forall x, y :: x in nodes && y in nodes && x.addr == y.addr ==> x == y
    requires forall x :: x in nodes ==> Known(tables[x], now, timeout) == nodes - {x}
    ensures exists w :: IsBest(w, nodes) && OldestHighest(w, nodes) &&
              forall x :: x in nodes ==> (Passes(x, tables[x], now, timeout) <==> x == w)
  {
    var w := BestExists(nodes);
    assert OldestHighest(w, nodes);
    forall x | x in nodes
      ensures Passes(x, tables[x], now, timeout) <==> x == w
    {
      if x == w {
        forall i | 0 <= i < |tables[w]| && Counts(tables[w][i], now, timeout)
          ensures !Better(Candidate(tables[w][i].addr, tables[w][i].basetime), w)
        {
          var p := tables[w][i];
          assert Candidate(p.addr, p.basetime) in Known(tables[w], now, timeout);
        }
      } else {
        assert w in Known(tables[x], now, timeout);
        var p :| p in tables[x] && Counts(p, now, timeout) && Candidate(p.addr, p.basetime) == w;
        var i :| 0 <= i < |tables[x]| && tables[x][i] == p;
        assert Better(Candidate(tables[x][i].addr, tables[x][i].basetime), x);
      }
    }
  }

  // ---- the duel among masters ----

  /** What a master's heartbeat claims. */
  datatype Claim = Claim(version: nat, who: Candidate)

  datatype Verdict = Die | Ignore | Provoke

  /** What a master does when it hears another master's heartbeat. */
  function Duel(me: Claim, them: Claim): Verdict {
    if them.who.basetime == 0 then Ignore
    else if them.version > me.version then Die
    else if them.version < me.version then Ignore
    else if me.who.basetime > them.who.basetime then Die
    else if me.who.basetime < them.who.basetime then Ignore
    else if me.who.addr < them.who.addr then Die
    else Provoke
  }

  predicate Beats(x: Claim, y: Claim) {
    x.version > y.version || (x.version == y.version && Better(x.who, y.who))
  }

  /** With equal table versions the duel and the election agree. */
  lemma DuelAgreesWithElection(me: Claim, them: Claim)
    requires me.version == them.version && them.who.basetime != 0
    ensures Duel(me, them) == Die <==> Better(them.who, me.who)
  {
  }

  /** A master gives way to a newer table version; of equal versions to an older node; of equally old ones to a higher
      address; never to one that is shutting down. It sends its last heartbeat again only to one exactly as new and as
      old whose address is not higher. */
  lemma DuelIs(me: Claim, them: Claim)
    ensures Duel(me, them) == Die <==>
              them.who.basetime != 0 &&
              (them.version > me.version ||
               (them.version == me.version &&
                (them.who.basetime < me.who.basetime ||
                 (them.who.basetime == me.who.basetime && them.who.addr > me.who.addr))))
    ensures Duel(me, them) == Provoke <==>
              them.who.basetime != 0 && them.version == me.version && them.who.basetime == me.who.basetime &&
              them.who.addr <= me.who.addr
  {
  }

  ghost predicate Champion(best: Claim, masters: set<Claim>) {
    best in masters && forall x :: x in masters && x != best ==> Beats(best, x)
  }

  /** One master hears another's heartbeat. */
  datatype Heard = Heard(hearer: Claim, speaker: Claim)

  function Survivors(masters: set<Claim>, hs: seq<Heard>): set<Claim>
    decreases |hs|
  {
    if hs == [] then masters
    else if hs[0].hearer in masters && Duel(hs[0].hearer, hs[0].speaker) == Die
    then Survivors(masters - {hs[0].hearer}, hs[1..])
    else Survivors(masters, hs[1..])
  }

  lemma {:induction false} ChampionExists(masters: set<Claim>) returns (best: Claim)
    requires masters != {}
    requires forall x, y :: x in masters && y in masters && x.who.addr == y.who.addr ==> x == y
    ensures Champion(best, masters)
    decreases |masters|
  {
    var x :| x in masters;
    var rest := masters - {x};
    if rest == {} {
      best := x;
      assert forall y :: y in masters ==> y == x || y in rest;
    } else {
      var b := ChampionExists(rest);
      best := if Beats(x, b) then x else b;
      forall y | y in masters && y != best
        ensures Beats(best, y)
      {
        if y != x { assert y in rest; }
      }
    }
  }

  /** Whatever the message order, and though dead masters' heartbeats may still arrive: the champion
      survives, nobody else comes back, and whoever has heard the champion is gone. */
  lemma {:induction false} ChampionSurvives(all: set<Claim>, alive: set<Claim>, best: Claim, hs: seq<Heard>)
    requires Champion(best, all) && alive <= all && best in alive
    requires forall x :: x in all ==> x.who.basetime != 0
    requires forall h :: h in hs ==> h.speaker in all && h.hearer in all && h.speaker != h.hearer
    ensures best in Survivors(alive, hs) && Survivors(alive, hs) <= alive
    ensures forall x :: x in all && x != best && Heard(x, best) in hs ==> x !in Survivors(alive, hs)
    decreases |hs|
  {
    if hs != [] {
      var h := hs[0];
      var alive' := if h.hearer in alive && Duel(h.hearer, h.speaker) == Die then alive - {h.hearer} else alive;
      assert forall k :: k in hs[1..] ==> k in hs;
      assert h in hs;
      if h.hearer == best { assert Beats(best, h.speaker); }
      ChampionSurvives(all, alive', best, hs[1..]);
      forall x | x in all && x != best && Heard(x, best) in hs
        ensures x !in Survivors(alive, hs)
      {
        if h == Heard(x, best) {
          assert Beats(best, x);
        } else {
          assert Heard(x, best) in hs[1..];
        }
      }
    }
  }

  // ---- while the tables go on changing ----

  /** The masters still there, and the table version each has reached, or had when it died. */
  datatype Reign = Reign(alive: set<Candidate>, version: map<Candidate, nat>)

  /** A master's version grows with its own heartbeats; a heartbeat that arrives may be an old one, of a master
      that has changed its tables, or died, since. */
  datatype Event = Grows(who: Candidate, version: nat) | Hears(hearer: Candidate, claim: Claim)

  predicate Possible(st: Reign, e: Event) {
    match e
    case Grows(who, version) => who in st.alive && who in st.version && st.version[who] <= version
    case Hears(hearer, claim) =>
      hearer in st.version && claim.who in st.version && claim.who != hearer && claim.version <= st.version[claim.who]
  }

  function Step(st: Reign, e: Event): Reign
    requires Possible(st, e)
  {
    match e
    case Grows(who, version) => st.(version := st.version[who := version])
    case Hears(hearer, claim) =>
      if hearer !in st.alive || Duel(Claim(st.version[hearer], hearer), claim) != Die then st
      else st.(alive := st.alive - {hearer})
  }

  predicate IsRun(st: Reign, es: seq<Event>)
    decreases |es|
  {
    es == [] || (Possible(st, es[0]) && IsRun(Step(st, es[0]), es[1..]))
  }

  function After(st: Reign, es: seq<Event>): Reign
    requires IsRun(st, es)
    decreases |es|
  {
    if es == [] then st else After(Step(st, es[0]), es[1..])
  }

  /** Masters at the start: all alive, with start times and addresses that tell them apart. */
  ghost predicate Rivals(st: Reign) {
    && st.alive <= st.version.Keys
    && (forall x :: x in st.version ==> x.basetime != 0)
    && forall x, y :: x in st.version && y in st.version && x.addr == y.addr ==> x == y
  }

  /** Whoever is gone has been outdone by one who is still there. */
  ghost predicate Ruled(st: Reign) {
    && Rivals(st)
    && forall x :: x in st.version && x !in st.alive ==>
       exists y :: y in st.alive && Beats(Claim(st.version[y], y), Claim(st.version[x], x))
  }

  lemma StepRuled(st: Reign, e: Event)
    requires Ruled(st) && Possible(st, e)
    ensures Ruled(Step(st, e)) && Step(st, e).version.Keys == st.version.Keys && Step(st, e).alive <= st.alive
  {
    var st' := Step(st, e);
    forall x | x in st'.version && x !in st'.alive
      ensures exists y :: y in st'.alive && Beats(Claim(st'.version[y], y), Claim(st'.version[x], x))
    {
      var y := Outdone(st, e, x);
      assert Beats(Claim(st'.version[y], y), Claim(st'.version[x], x));
    }
  }

  lemma Outdone(st: Reign, e: Event, x: Candidate) returns (y: Candidate)
    requires Ruled(st) && Possible(st, e) && x in Step(st, e).version && x !in Step(st, e).alive
    ensures y in Step(st, e).alive && y in Step(st, e).version
    ensures Beats(Claim(Step(st, e).version[y], y), Claim(Step(st, e).version[x], x))
  {
    match e {
      case Grows(who, version) =>
        y :| y in st.alive && Beats(Claim(st.version[y], y), Claim(st.version[x], x));
      case Hears(hearer, claim) =>
        if hearer in st.alive && hearer !in Step(st, e).alive {
          var z := Ruler(st, claim.who);
          assert Beats(Claim(st.version[z], z), Claim(st.version[hearer], hearer));
          if x == hearer {
            y := z;
          } else {
            y :| y in st.alive && Beats(Claim(st.version[y], y), Claim(st.version[x], x));
            if y == hearer { y := z; }
          }
        } else {
          y :| y in st.alive && Beats(Claim(st.version[y], y), Claim(st.version[x], x));
        }
    }
  }

  /** One who is there and at least as good. */
  lemma Ruler(st: Reign, x: Candidate) returns (y: Candidate)
    requires Ruled(st) && x in st.version
    ensures y in st.alive && (y == x || Beats(Claim(st.version[y], y), Claim(st.version[x], x)))
  {
    if x in st.alive {
      y := x;
    } else {
      y :| y in st.alive && Beats(Claim(st.version[y], y), Claim(st.version[x], x));
    }
  }

  lemma {:induction false} RunRuled(st: Reign, es: seq<Event>)
    requires Ruled(st) && IsRun(st, es)
    ensures Ruled(After(st, es)) && After(st, es).version.Keys == st.version.Keys && After(st, es).alive <= st.alive
    decreases |es|
  {
    hide Ruled, Possible, Step;
    if es != [] {
      StepRuled(st, es[0]);
      RunRuled(Step(st, es[0]), es[1..]);
    }
  }

  /** Over every run, whatever grows and however old the heartbeats are that arrive: a master is left. */
  lemma SomeMasterSurvives(st: Reign, es: seq<Event>)
    requires Rivals(st) && st.alive == st.version.Keys != {} && IsRun(st, es)
    ensures After(st, es).alive != {}
  {
    hide After, IsRun;
    RunRuled(st, es);
    var x :| x in st.version;
    var y := Ruler(After(st, es), x);
  }

  lemma {:induction false} Resting(st: Reign, hs: seq<Event>)
    requires IsRun(st, hs) && forall e :: e in hs ==> e.Hears?
    ensures After(st, hs).version == st.version
    decreases |hs|
  {
    if hs != [] {
      assert hs[0] in hs && forall e :: e in hs[1..] ==> e in hs;
      Resting(Step(st, hs[0]), hs[1..]);
    }
  }

  /** Among the heartbeats `x` hears is one that beats its own claim. */
  ghost predicate Outheard(st: Reign, hs: seq<Event>, x: Candidate)
    requires x in st.version
  {
    exists claim :: Hears(x, claim) in hs && Beats(claim, Claim(st.version[x], x))
  }

  lemma HearingIff(st: Reign, e: Event, x: Candidate)
    requires Rivals(st) && Possible(st, e) && e.Hears? && x in st.alive
    ensures Step(st, e).version == st.version
    ensures x in Step(st, e).alive <==> !(e.hearer == x && Beats(e.claim, Claim(st.version[x], x)))
  {
  }

  lemma OutheardOn(st: Reign, st': Reign, hs: seq<Event>, x: Candidate)
    requires hs != [] && hs[0].Hears? && x in st.version && st'.version == st.version
    ensures Outheard(st, hs, x) <==>
              (hs[0].hearer == x && Beats(hs[0].claim, Claim(st.version[x], x))) || Outheard(st', hs[1..], x)
  {
    hide Beats;
    assert hs == [hs[0]] + hs[1..];
    if hs[0].hearer == x { assert Hears(x, hs[0].claim) == hs[0] && hs[0] in hs; }
  }

  /** Once versions rest, a master stays exactly as long as it hears no claim that beats its own. */
  lemma {:induction false} StaysIff(st: Reign, hs: seq<Event>, x: Candidate)
    requires Ruled(st) && IsRun(st, hs) && (forall e :: e in hs ==> e.Hears?) && x in st.alive
    ensures x in st.version && (x in After(st, hs).alive <==> !Outheard(st, hs, x))
    decreases |hs|
  {
    hide Ruled, Beats, Possible, Step, Outheard;
    StillThere(st);
    if hs == [] {
      NothingHeard(st, x);
    } else {
      assert hs[0] in hs && forall e :: e in hs[1..] ==> e in hs;
      var st' := Step(st, hs[0]);
      HearingIff(st, hs[0], x);
      OutheardOn(st, st', hs, x);
      StepRuled(st, hs[0]);
      RunRuled(st', hs[1..]);
      if x in st'.alive { StaysIff(st', hs[1..], x); }
    }
  }

  lemma StillThere(st: Reign)
    requires Ruled(st)
    ensures Rivals(st)
  {
  }

  lemma NothingHeard(st: Reign, x: Candidate)
    requires x in st.version
    ensures !Outheard(st, [], x)
  {
  }

  /** Masters that go on changing their tables for a while, until versions rest: a master is the only one left
      if and only if every other that was still there has heard a claim that beats its own. */
  lemma OneMasterIff(st: Reign, es: seq<Event>, hs: seq<Event>)
    requires Rivals(st) && st.alive == st.version.Keys != {} && IsRun(st, es)
    requires IsRun(After(st, es), hs) && (forall e :: e in hs ==> e.Hears?)
    ensures var mid := After(st, es); var end := After(mid, hs);
            && end.alive != {} && end.alive <= mid.alive <= mid.version.Keys && end.version == mid.version
            && forall best :: best in mid.alive ==>
                 (end.alive == {best} <==> forall x :: x in mid.alive && x != best ==> Outheard(mid, hs, x))
  {
    hide After, IsRun, Step, Possible, Beats;
    RunRuled(st, es);
    var mid := After(st, es);
    RunRuled(mid, hs);
    Resting(mid, hs);
    var end := After(mid, hs);
    var z :| z in st.version;
    z := Ruler(end, z);
    forall x | x in mid.alive
      ensures x in end.alive <==> !Outheard(mid, hs, x)
    {
      StaysIff(mid, hs, x);
    }
  }

  /** Every two that are still there hear each other's current claim. */
  ghost predicate AllHeard(st: Reign, hs: seq<Event>) {
    forall x, y :: x in st.alive && y in st.alive && x != y && y in st.version ==>
      Hears(x, Claim(st.version[y], y)) in hs
  }

  /** The newest tables, then the oldest node, then the highest address. */
  ghost predicate NewestOldestHighest(st: Reign, best: Candidate, among: set<Candidate>)
    requires best in st.version && among <= st.version.Keys
  {
    forall x :: x in among ==>
      st.version[x] <= st.version[best] &&
      (st.version[x] == st.version[best] ==>
         best.basetime <= x.basetime && (x.basetime == best.basetime ==> x.addr <= best.addr))
  }

  /** It is so when they all hear one another; and the one that is left has the newest tables, or is the oldest of
      those that have, with the highest address of those. */
  lemma OneMasterSurvives(st: Reign, es: seq<Event>, hs: seq<Event>)
    requires Rivals(st) && st.alive == st.version.Keys != {} && IsRun(st, es)
    requires IsRun(After(st, es), hs) && (forall e :: e in hs ==> e.Hears?)
    requires AllHeard(After(st, es), hs)
    ensures var mid := After(st, es);
            exists best :: best in mid.alive && mid.alive <= mid.version.Keys && After(mid, hs).alive == {best} &&
                           NewestOldestHighest(mid, best, mid.alive)
  {
    hide After, IsRun, Step, Possible;
    RunRuled(st, es);
    var mid := After(st, es);
    OneMasterIff(st, es, hs);
    var end := After(mid, hs);
    var best :| best in end.alive;
    StaysIff(mid, hs, best);
    forall x | x in mid.alive && x != best
      ensures Outheard(mid, hs, x)
    {
      var cx, cb := Claim(mid.version[x], x), Claim(mid.version[best], best);
      assert Hears(x, cb) in hs && Hears(best, cx) in hs;
    }
    assert end.alive == {best};
    forall x | x in mid.alive && x != best
      ensures Beats(Claim(mid.version[best], best), Claim(mid.version[x], x))
    {
      assert Hears(best, Claim(mid.version[x], x)) in hs;
    }
    assert NewestOldestHighest(mid, best, mid.alive);
  }

  /** While both keep growing between hearing from each other, two masters can go on side by side. */
  lemma GrowingMastersPersist(a: Candidate, b: Candidate, n: nat)
    requires a != b && a.basetime != 0 && b.basetime != 0
    ensures var st := Reign({a, b}, map[a := n + 1, b := n + 1]);
            var es := [Grows(a, n + 2), Grows(b, n + 2), Hears(a, Claim(n + 1, b)), Hears(b, Claim(n + 1, a))];
            IsRun(st, es) && After(st, es) == Reign({a, b}, map[a := n + 2, b := n + 2])
  {
    var st := Reign({a, b}, map[a := n + 1, b := n + 1]);
    var s1 := Step(st, Grows(a, n + 2));
    var s2 := Step(s1, Grows(b, n + 2));
    assert s2.version == map[a := n + 2, b := n + 2];
    assert Step(s2, Hears(a, Claim(n + 1, b))) == s2 && Step(s2, Hears(b, Claim(n + 1, a))) == s2;
    Single(s2, Hears(b, Claim(n + 1, a)), []);
    Single(s2, Hears(a, Claim(n + 1, b)), [Hears(b, Claim(n + 1, a))]);
    Single(s1, Grows(b, n + 2), [Hears(a, Claim(n + 1, b)), Hears(b, Claim(n + 1, a))]);
    Single(st, Grows(a, n + 2), [Grows(b, n + 2), Hears(a, Claim(n + 1, b)), Hears(b, Claim(n + 1, a))]);
    assert [Hears(b, Claim(n + 1, a))] + [] == [Hears(b, Claim(n + 1, a))];
  }

  lemma Single(st: Reign, e: Event, es: seq<Event>)
    requires Possible(st, e) && IsRun(Step(st, e), es)
    ensures IsRun(st, [e] + es) && After(st, [e] + es) == After(Step(st, e), es)
  {
    assert ([e] + es)[1..] == es;
  }
}
