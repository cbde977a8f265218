/** The replicated tables of a cluster node, and the flag that says a slave holds all of them. */
module ClusterTables {
  import opened Common
  import opened Heartbeat

  /** A structure a slave has not been told about yet is undefined; its content is opaque otherwise. */
  datatype Slot = Undefined | Defined(block: Block)

  datatype Trio<+T> = Trio(session: T, bundle: T, tunnel: T) {
    function Get(kind: Kind): T {
      match kind
      case Session => session
      case Bundle => bundle
      case Tunnel => tunnel
    }

    function Set(kind: Kind, x: T): (t: Trio<T>)
      ensures t.Get(kind) == x && forall k :: k != kind ==> t.Get(k) == Get(k)
    {
      match kind
      case Session => this.(session := x)
      case Bundle => this.(bundle := x)
      case Tunnel => this.(tunnel := x)
    }
  }

  /** A free structure: all zero bytes, as memset leaves it. */
  function Free(L: Layout, kind: Kind): (b: Block)
    ensures |b| == L.Size(kind)
  {
    seq(L.Size(kind), _ => 0)
  }

  /** The tables, the count of undefined entries each is believed to have, and the flag. */
  datatype Tables = Tables(slots: Trio<seq<Slot>>, undefined: Trio<int>, uptodate: bool) {
    function At(kind: Kind, id: nat): Slot
      requires id < |slots.Get(kind)|
    {
      slots.Get(kind)[id]
    }

    function NoneUndefined(): bool {
      undefined.session == 0 && undefined.tunnel == 0 && undefined.bundle == 0
    }
  }

  /** How many of the entries before `n` are undefined. */
  function Undefs(t: seq<Slot>, n: nat): (c: nat)
    requires n <= |t|
    ensures c <= n
  {
    if n == 0 then 0 else Undefs(t, n - 1) + if t[n - 1].Undefined? then 1 else 0
  }

  // ---- operations ----

  /** cluster_uptodate. */
  function Raise(t: Tables): Tables {
    if t.NoneUndefined() then t.(uptodate := true) else t
  }

  /** cluster_recv_session, cluster_recv_bundle and cluster_recv_tunnel. */
  function Received(t: Tables, e: Element): Tables {
    var slots := t.slots.Get(e.kind);
    if e.id >= |slots| then t
    else
      var left := t.undefined.Get(e.kind) - if slots[e.id].Undefined? && !t.uptodate then 1 else 0;
      Raise(Tables(t.slots.Set(e.kind, slots[e.id := Defined(e.block)]), t.undefined.Set(e.kind, left), t.uptodate))
  }

  function ReceivedAll(t: Tables, es: seq<Element>): Tables
    decreases |es|
  {
    if es == [] then t else ReceivedAll(Received(t, es[0]), es[1..])
  }

  /** Entries beyond the highest id in use are free, not undefined. */
  function Cleared(t: seq<Slot>, high: int, free: Block): (r: seq<Slot>)
    ensures |r| == |t|
    ensures forall i :: 0 <= i < |t| ==> r[i] == if i > high && t[i].Undefined? && i > 0 then Defined(free) else t[i]
  {
    seq(|t|, i requires 0 <= i < |t| => if i > high && t[i].Undefined? && i > 0 then Defined(free) else t[i])
  }

  /** cluster_check_sessions. */
  function Checked(L: Layout, t: Tables, high: Trio<int>): Tables {
    if t.uptodate then t
    else if high.session > t.undefined.session && high.bundle > t.undefined.bundle && high.tunnel > t.undefined.tunnel
    then t
    else
      var s := Cleared(t.slots.session, high.session, Free(L, Session));
      var b := Cleared(t.slots.bundle, high.bundle, Free(L, Bundle));
      var u := Cleared(t.slots.tunnel, high.tunnel, Free(L, Tunnel));
      Raise(Tables(Trio(s, b, u), Trio(Undefs(s, |s|), Undefs(b, |b|), Undefs(u, |u|)), false))
  }

  // ---- the flag ----

  /** Until the flag is raised each counter is the number of undefined entries, and once it is
      raised there are none. Entry 0 of a table is never undefined. */
  ghost predicate Counted(t: Tables) {
    forall kind :: var s := t.slots.Get(kind);
      && (|s| > 0 ==> s[0].Defined?)
      && Undefs(s, |s|) == if t.uptodate then 0 else t.undefined.Get(kind)
  }

  lemma {:induction false} UndefsUpdate(t: seq<Slot>, i: nat, x: Slot, n: nat)
    requires i < |t| && n <= |t| && x.Defined?
    ensures Undefs(t[i := x], n) == Undefs(t, n) - if i < n && t[i].Undefined? then 1 else 0
    decreases n
  {
    if n > 0 {
      UndefsUpdate(t, i, x, n - 1);
    }
  }

  lemma {:induction false} NoUndefs(t: seq<Slot>, n: nat)
    requires n <= |t|
    ensures Undefs(t, n) == 0 <==> forall i :: 0 <= i < n ==> t[i].Defined?
    decreases n
  {
    if n > 0 {
      NoUndefs(t, n - 1);
    }
  }

  lemma ReceivedCounted(t: Tables, e: Element)
    requires Counted(t)
    ensures Counted(Received(t, e)) && (t.uptodate ==> Received(t, e).uptodate)
  {
    var slots := t.slots.Get(e.kind);
    var t' := Received(t, e);
    if e.id < |slots| {
      UndefsUpdate(slots, e.id, Defined(e.block), |slots|);
      NoUndefs(slots, |slots|);
      forall kind
        ensures var s := t'.slots.Get(kind);
                Undefs(s, |s|) == (if t'.uptodate then 0 else t'.undefined.Get(kind)) && (|s| > 0 ==> s[0].Defined?)
      {
        assert Undefs(t.slots.Get(kind), |t.slots.Get(kind)|) == if t.uptodate then 0 else t.undefined.Get(kind);
      }
    }
  }

  lemma {:induction false} ReceivedAllCounted(t: Tables, es: seq<Element>)
    requires Counted(t)
    ensures Counted(ReceivedAll(t, es)) && (t.uptodate ==> ReceivedAll(t, es).uptodate)
    decreases |es|
  {
    if es != [] {
      ReceivedCounted(t, es[0]);
      ReceivedAllCounted(Received(t, es[0]), es[1..]);
    }
  }

  lemma CheckedCounted(L: Layout, t: Tables, high: Trio<int>)
    requires Counted(t)
    ensures Counted(Checked(L, t, high)) && (t.uptodate ==> Checked(L, t, high).uptodate)
  {
    var t' := Checked(L, t, high);
    forall kind
      ensures var s := t'.slots.Get(kind);
              Undefs(s, |s|) == (if t'.uptodate then 0 else t'.undefined.Get(kind)) && (|s| > 0 ==> s[0].Defined?)
    {
      assert var s := t.slots.Get(kind); |s| > 0 ==> s[0].Defined?;
      assert Undefs(t.slots.Get(kind), |t.slots.Get(kind)|) == if t.uptodate then 0 else t.undefined.Get(kind);
    }
  }

  // ---- over a whole run ----

  datatype Update = Check(high: Trio<int>) | Receive(e: Element)

  function Applied(L: Layout, t: Tables, us: seq<Update>): Tables
    decreases |us|
  {
    if us == [] then t
    else
      var u := us[0];
      Applied(L, if u.Check? then Checked(L, t, u.high) else Received(t, u.e), us[1..])
  }

  /** A node that has just started: everything but entry 0 is undefined, and counted as such. */
  ghost predicate Initial(t: Tables) {
    !t.uptodate && forall kind :: var s := t.slots.Get(kind);
      |s| > 0 && s[0].Defined? && (forall i :: 1 <= i < |s| ==> s[i].Undefined?) && t.undefined.Get(kind) == |s| - 1
  }

  lemma {:induction false} AllUndefs(s: seq<Slot>, n: nat)
    requires 1 <= n <= |s| && s[0].Defined? && forall i :: 1 <= i < |s| ==> s[i].Undefined?
    ensures Undefs(s, n) == n - 1
    decreases n
  {
    if n > 1 {
      AllUndefs(s, n - 1);
    } else {
      assert Undefs(s, 0) == 0;
    }
  }

  lemma InitialCounted(t: Tables)
    requires Initial(t)
    ensures Counted(t)
  {
    forall k: Kind
      ensures var s := t.slots.Get(k); Undefs(s, |s|) == t.undefined.Get(k) && |s| > 0 && s[0].Defined?
    {
      AllUndefs(t.slots.Get(k), |t.slots.Get(k)|);
    }
  }

  /** Nothing that is defined becomes undefined again. */
  ghost predicate Grows(t: Tables, t': Tables) {
    forall kind :: var s, s' := t.slots.Get(kind), t'.slots.Get(kind);
      |s'| == |s| && forall i :: 0 <= i < |s| && s[i].Defined? ==> s'[i].Defined?
  }

  lemma OneGrows(L: Layout, t: Tables, u: Update)
    ensures Grows(t, Applied(L, t, [u]))
    ensures Applied(L, t, [u]) == if u.Check? then Checked(L, t, u.high) else Received(t, u.e)
  {
    assert [u][1..] == [];
  }

  lemma {:induction false} RunCounted(L: Layout, t: Tables, us: seq<Update>)
    requires Counted(t)
    ensures Counted(Applied(L, t, us)) && Grows(t, Applied(L, t, us))
    ensures t.uptodate ==> Applied(L, t, us).uptodate
    decreases |us|
  {
    hide Counted, Checked, Received;
    if us != [] {
      var u := us[0];
      OneGrows(L, t, u);
      if u.Check? { CheckedCounted(L, t, u.high); } else { ReceivedCounted(t, u.e); }
      RunCounted(L, Applied(L, t, [u]), us[1..]);
    }
  }

  /** From a fresh start, whatever arrives: the flag is raised only when no entry is undefined, until
      then each counter is exact, and what is defined stays defined. */
  lemma FlagIsTruthful(L: Layout, t: Tables, us: seq<Update>, kind: Kind)
    requires Initial(t)
    ensures var t' := Applied(L, t, us); var s := t'.slots.Get(kind);
            && Grows(t, t')
            && (t'.uptodate ==> forall i :: 0 <= i < |s| ==> s[i].Defined?)
            && (!t'.uptodate ==> t'.undefined.Get(kind) == Undefs(s, |s|))
  {
    InitialCounted(t);
    RunCounted(L, t, us);
    var s := Applied(L, t, us).slots.Get(kind);
    NoUndefs(s, |s|);
  }
}
