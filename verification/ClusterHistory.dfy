/** The ring of recent heartbeats. A master keeps what it sends there and a slave what it accepts, so
    either can bring a late slave up to date. Heartbeat numbers wrap at 2^30. */
module ClusterHistory {
  import opened Common

  const HB_MAX_SEQ := 0x4000_0000
  const HB_HISTORY_SIZE := 64

  datatype Heart = Heart(seqno: int, data: seq<Byte>)

  /** The heartbeat number of the n-th heartbeat ever. */
  function Number(n: int): (s: nat)
    ensures s < HB_MAX_SEQ
  {
    n % HB_MAX_SEQ
  }

  function Place(seqno: nat): (i: nat)
    ensures i < HB_HISTORY_SIZE
  {
    seqno % HB_HISTORY_SIZE
  }

  lemma PlaceOfNumber(n: nat)
    ensures Place(Number(n)) == n % HB_HISTORY_SIZE
  {
    var q := n / HB_MAX_SEQ;
    assert n == Number(n) + HB_HISTORY_SIZE * (q * 0x100_0000);
    DropMultiple(Number(n), q * 0x100_0000);
  }

  lemma DropMultiple(x: nat, k: nat)
    ensures (x + HB_HISTORY_SIZE * k) % HB_HISTORY_SIZE == x % HB_HISTORY_SIZE
  {
  }

  lemma NextNumber(n: nat)
    ensures (Number(n) + 1) % HB_MAX_SEQ == Number(n + 1)
  {
  }

  /** Numbers less than 2^30 apart are told apart. */
  lemma NumberIsInjective(n: int, m: int)
    requires Number(n) == Number(m) && -HB_MAX_SEQ < n - m < HB_MAX_SEQ
    ensures n == m
  {
    var q, r := n / HB_MAX_SEQ, m / HB_MAX_SEQ;
    assert n - m == HB_MAX_SEQ * (q - r);
  }

  /** The ring holds the heartbeats `log[from..n]`, under their wrapped numbers. */
  ghost predicate Holds(ring: seq<Heart>, log: seq<seq<Byte>>, from: nat, n: nat) {
    && |ring| == HB_HISTORY_SIZE && from <= n <= |log|
    && forall j {:trigger log[j]} :: from <= j < n ==> ring[j % HB_HISTORY_SIZE] == Heart(Number(j), log[j])
  }

  /** Storing a heartbeat, by the master that sends it or the slave that accepts it. */
  function Stored(ring: seq<Heart>, seqno: nat, data: seq<Byte>): (r: seq<Heart>)
    requires |ring| == HB_HISTORY_SIZE
    ensures |r| == HB_HISTORY_SIZE
  {
    ring[Place(seqno) := Heart(seqno, data)]
  }

  lemma DistinctPlaces(i: nat, j: nat)
    requires i < j < i + HB_HISTORY_SIZE
    ensures i % HB_HISTORY_SIZE != j % HB_HISTORY_SIZE
  {
    assert j - i == HB_HISTORY_SIZE * (j / HB_HISTORY_SIZE - i / HB_HISTORY_SIZE) +
           (j % HB_HISTORY_SIZE - i % HB_HISTORY_SIZE);
  }

  /** The ring then holds the new heartbeat and the 63 before it, as far as it held them. */
  lemma StoredHolds(ring: seq<Heart>, log: seq<seq<Byte>>, from: nat, n: nat)
    requires Holds(ring, log, from, n) && n < |log|
    ensures Holds(Stored(ring, Number(n), log[n]), log, Max(from, n + 1 - HB_HISTORY_SIZE), n + 1)
  {
    PlaceOfNumber(n);
    var from', ring' := Max(from, n + 1 - HB_HISTORY_SIZE), Stored(ring, Number(n), log[n]);
    forall j | from' <= j < n + 1
      ensures ring'[j % HB_HISTORY_SIZE] == Heart(Number(j), log[j])
    {
      if j < n { DistinctPlaces(j, n); }
    }
  }

  // ---- catching up ----

  datatype CatchUp =
    | Killed                          // the slave is told to die
    | Mismatch(sent: seq<seq<Byte>>)  // a packet is not in the ring after all
    | Resent(sent: seq<seq<Byte>>)
    | OutOfRing(index: int)           // past_hearts is read at an index it does not have

  /** What was sent already, and then what else happens. */
  function Preceded(sent: seq<seq<Byte>>, rest: CatchUp): CatchUp {
    match rest
    case Resent(more) => Resent(sent + more)
    case Mismatch(more) => Mismatch(sent + more)
    case other => other
  }

  /** The resend loop of cluster_catchup_slave, from `seqno` up to the next number to send. The remainder of
      a negative number is negative, so a number just below 0 leads to an index just below 0. */
  function Resend(ring: seq<Heart>, seqno: int, next: nat): CatchUp
    requires |ring| == HB_HISTORY_SIZE && -HB_HISTORY_SIZE < seqno && next < HB_MAX_SEQ
    decreases if seqno < HB_MAX_SEQ then Lag(seqno, next) else HB_MAX_SEQ
  {
    if seqno == next then Resent([])
    else if seqno < 0 then OutOfRing(seqno)
    else if ring[Place(seqno)].seqno != seqno then Mismatch([])
    else Preceded([ring[Place(seqno)].data], Resend(ring, (seqno + 1) % HB_MAX_SEQ, next))
  }

  /** How far behind a slave that expects `seqno` is. */
  function Lag(seqno: int, next: nat): int {
    var diff := next - seqno;
    if diff < 0 then diff + HB_MAX_SEQ else diff
  }

  /** cluster_catchup_slave on a master. */
  function CaughtUp(ring: seq<Heart>, seqno: int, next: nat): CatchUp
    requires |ring| == HB_HISTORY_SIZE && next < HB_MAX_SEQ
  {
    if Lag(seqno, next) >= HB_HISTORY_SIZE then Killed else Resend(ring, seqno, next)
  }

  lemma LagOfNumbers(m: nat, n: nat)
    requires m <= n < m + HB_MAX_SEQ
    ensures Lag(Number(m), Number(n)) == n - m
  {
    var q, r := m / HB_MAX_SEQ, n / HB_MAX_SEQ;
    assert n - m == HB_MAX_SEQ * (r - q) + (Number(n) - Number(m));
  }

  lemma {:induction false} ResendDelivers(ring: seq<Heart>, log: seq<seq<Byte>>, from: nat, m: nat, n: nat)
    requires Holds(ring, log, from, n) && from <= m <= n < m + HB_HISTORY_SIZE
    ensures Resend(ring, Number(m), Number(n)) == Resent(log[m..n])
    decreases n - m
  {
    hide Number, Place, Lag;
    if m == n {
      assert log[m..n] == [];
    } else {
      if Number(m) == Number(n) { NumberIsInjective(m, n); }
      PlaceOfNumber(m);
      NextNumber(m);
      ResendDelivers(ring, log, from, m + 1, n);
      assert log[m] == log[m];
      assert log[m..n] == [log[m]] + log[m + 1..n];
    }
  }

  /** A slave that is d behind gets exactly the d heartbeats it missed, in order, across the wrap, if
      they are still held; from 64 behind on it is told to die instead, and only then. */
  lemma CatchUpDelivers(ring: seq<Heart>, log: seq<seq<Byte>>, from: nat, m: nat, n: nat)
    requires Holds(ring, log, from, n) && from <= m <= n < m + HB_MAX_SEQ
    ensures CaughtUp(ring, Number(m), Number(n)) ==
            if n - m >= HB_HISTORY_SIZE then Killed else Resent(log[m..n])
  {
    hide Number, Resend;
    LagOfNumbers(m, n);
    if n - m < HB_HISTORY_SIZE {
      ResendDelivers(ring, log, from, m, n);
    }
  }

  /** The packets the ring has in the places of heartbeats `m` to before `j`. */
  function Kept(ring: seq<Heart>, m: nat, j: nat): (ps: seq<seq<Byte>>)
    requires |ring| == HB_HISTORY_SIZE && m <= j
    ensures |ps| == j - m && forall i :: 0 <= i < j - m ==> ps[i] == ring[(m + i) % 64].data
  {
    seq(j - m, i requires 0 <= i < j - m => ring[(m + i) % 64].data)
  }

  lemma ResendOne(ring: seq<Heart>, m: nat, n: nat)
    requires |ring| == HB_HISTORY_SIZE && Number(m) != Number(n)
    ensures Resend(ring, Number(m), Number(n)) ==
            if ring[m % 64].seqno != Number(m) then Mismatch([])
            else Preceded([ring[m % 64].data], Resend(ring, Number(m + 1), Number(n)))
  {
    hide Number, Place, Lag;
    PlaceOfNumber(m);
    NextNumber(m);
  }

  lemma ResendNone(ring: seq<Heart>, n: nat)
    requires |ring| == HB_HISTORY_SIZE
    ensures Resend(ring, Number(n), Number(n)) == Resent([])
  {
  }

  /** Whatever the ring holds: heartbeats are resent as long as they stand in their places, up to the next one to
      send; the first that does not puts an end to it. */
  lemma {:induction false} ResendIs(ring: seq<Heart>, m: nat, j: nat, n: nat)
    requires |ring| == HB_HISTORY_SIZE && m <= j <= n < m + 64
    requires forall i :: m <= i < j ==> ring[i % 64].seqno == Number(i)
    requires j < n ==> ring[j % 64].seqno != Number(j)
    ensures Resend(ring, Number(m), Number(n)) ==
            if j == n then Resent(Kept(ring, m, j)) else Mismatch(Kept(ring, m, j))
    decreases n - m
  {
    hide Number, Resend;
    if m == n {
      ResendNone(ring, n);
      assert Kept(ring, m, m) == [];
    } else {
      if Number(m) == Number(n) { NumberIsInjective(m, n); }
      ResendOne(ring, m, n);
      if m == j {
        assert Kept(ring, m, m) == [];
      } else {
        assert ring[m % 64].seqno == Number(m);
        ResendIs(ring, m + 1, j, n);
        assert [ring[m % 64].data] + Kept(ring, m + 1, j) == Kept(ring, m, j);
      }
    }
  }

  lemma CaughtUpIs(ring: seq<Heart>, m: nat, j: nat, n: nat)
    requires |ring| == HB_HISTORY_SIZE && m <= j <= n < m + 64
    requires forall i :: m <= i < j ==> ring[i % 64].seqno == Number(i)
    requires j < n ==> ring[j % 64].seqno != Number(j)
    ensures CaughtUp(ring, Number(m), Number(n)) ==
            if j == n then Resent(Kept(ring, m, j)) else Mismatch(Kept(ring, m, j))
  {
    hide Number, Resend;
    LagOfNumbers(m, n);
    ResendIs(ring, m, j, n);
  }

  /** One master provokes another by asking itself for the heartbeat before the next one. That heartbeat, if
      the ring holds it, is resent exactly when the next number is not 0; at 0, before the first heartbeat
      and at every wrap, the ring is read at index -1 instead. */
  lemma ProvokeIff(ring: seq<Heart>, log: seq<seq<Byte>>, from: nat, n: nat)
    requires Holds(ring, log, from, n)
    ensures from < n ==> (CaughtUp(ring, Number(n) - 1, Number(n)) == Resent([log[n - 1]]) <==> Number(n) != 0)
    ensures CaughtUp(ring, Number(n) - 1, Number(n)) == OutOfRing(-1) <==> Number(n) == 0
  {
    hide Resend;
    if Number(n) == 0 {
      ResendBelow(ring, -1, 0);
    } else {
      PreviousNumber(n);
      if from < n {
        CatchUpDelivers(ring, log, from, n - 1, n);
        assert log[n - 1..n] == [log[n - 1]];
      }
      NotBelow(ring, Number(n) - 1, Number(n));
    }
  }

  lemma ResendBelow(ring: seq<Heart>, seqno: int, next: nat)
    requires |ring| == HB_HISTORY_SIZE && -HB_HISTORY_SIZE < seqno < 0 && next < HB_MAX_SEQ
    ensures Resend(ring, seqno, next) == OutOfRing(seqno)
  {
  }

  lemma PreviousNumber(n: nat)
    requires Number(n) != 0
    ensures n > 0 && Number(n - 1) == Number(n) - 1
  {
  }

  /** A resend that starts in range never leaves it. */
  lemma {:induction false} NotBelow(ring: seq<Heart>, seqno: nat, next: nat)
    requires |ring| == HB_HISTORY_SIZE && seqno < HB_MAX_SEQ && next < HB_MAX_SEQ
    ensures !Resend(ring, seqno, next).OutOfRing? && !Resend(ring, seqno, next).Killed?
    decreases Lag(seqno, next)
  {
    if seqno != next && ring[Place(seqno)].seqno == seqno { NotBelow(ring, (seqno + 1) % HB_MAX_SEQ, next); }
  }
}
