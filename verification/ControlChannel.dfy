/** The reliable control channel of one L2TP tunnel end, with its 16-bit arithmetic.
    What each operation does is stated on a value (`TunnelState`, `Outcome`); class `Tunnel`
    is the code, a queue that is linked, popped and walked, proved against it. */
module ControlChannel {
  import opened Common

  const SEQ_MOD := 0x1_0000
  const MAX_TRIES := 5

  type Message = seq<Byte>

  /** A queued control message: its sequence number is stamped when it is queued. */
  datatype Control = Control(ns: U16, body: Message)

  /** A control packet on the wire; `body` is None for a zero length block. */
  datatype Wire = Wire(ns: U16, nr: U16, body: Option<Message>)

  datatype TunnelState = TunnelState(
    ns: U16, nr: U16, controls: seq<Control>, window: U16, tries: int, retry: int)

  /** What one operation does: the new state, how many acknowledged messages left the queue,
      which stretch of the remaining queue is transmitted, whether a zero length block is sent
      and what is handed to the application. */
  datatype Outcome = Outcome(
    next: TunnelState, popped: nat, first: nat, count: nat, zlb: bool, delivered: Option<Message>)

  function Mod16(x: int): (r: U16)
    ensures (x - r) % SEQ_MOD == 0
  {
    x % SEQ_MOD
  }

  /** The deadline tunnelsend sets: a bounded exponential backoff. */
  function Backoff(tries: int, now: int): int {
    now + 10 * (if tries <= 0 then 1 else if tries == 1 then 2 else if tries == 2 then 4
                else if tries == 3 then 8 else if tries == 4 then 16 else 32)
  }

  /** How many queued messages an acknowledgement removes: when `nr` is ahead of the oldest queued
      number by 1 to 2^15 (mod 2^16), that many, as far as the queue goes; otherwise none. */
  function Acknowledged(t: TunnelState, nr: U16): (k: nat)
    ensures k <= |t.controls|
  {
    var ahead := Mod16(nr - (t.ns - |t.controls|));
    if ahead <= SEQ_MOD / 2 then Min(ahead, |t.controls|) else 0
  }

  function Quiet(t: TunnelState): Outcome { Outcome(t, 0, 0, 0, false, None) }

  /** controlnull: a zero length block, unless a queued message will carry the acknowledgement. */
  function NullStep(t: TunnelState, now: int): Outcome {
    if t.controls != [] then Quiet(t)
    else Outcome(t.(retry := Backoff(t.tries, now)), 0, 0, 0, true, None)
  }

  function AddStep(t: TunnelState, body: Message, now: int): Outcome {
    var queue := t.controls + [Control(t.ns, body)];
    var next := t.(ns := Mod16(t.ns + 1), controls := queue);
    if |queue| <= t.window
    then Outcome(next.(tries := 0, retry := Backoff(0, now)), 0, |queue| - 1, 1, false, None)
    else Outcome(next, 0, |queue|, 0, false, None)
  }

  function ReceiveStep(t: TunnelState, w: Wire, now: int): Outcome {
    if w.ns != t.nr then
      if w.body.Some? then NullStep(t, now) else Quiet(t)
    else
      var k := Acknowledged(t, w.nr);
      var queue := t.controls[k..];
      var from := Min(if k <= t.window then t.window - k else 0, |queue|);
      var count := Min(t.window, |queue|) - from;
      var moved := if k > 0 || count > 0 then 0 else t.tries;
      var next := t.(nr := if w.body.Some? then Mod16(w.ns + 1) else t.nr,
                     controls := queue,
                     tries := moved,
                     retry := if queue == [] then 0 else if count > 0 then Backoff(0, now) else t.retry);
      Outcome(next, k, from, count, false, w.body)
  }

  /** A tunnel that tunnelkill has cleared: the window of zero marks it. */
  const Killed: TunnelState := TunnelState(0, 0, [], 0, 0, 0)

  function TimeoutStep(t: TunnelState, now: int): Outcome {
    if t.retry != 0 && t.controls != [] && t.retry <= now then
      if t.tries + 1 > MAX_TRIES then Quiet(Killed)
      else
        var count := Min(t.window, |t.controls|);
        var next := t.(tries := t.tries + 1);
        Outcome(if count > 0 then next.(retry := Backoff(t.tries + 1, now)) else next, 0, 0, count, false, None)
    else Quiet(t)
  }

  /** Queued messages as they leave: each quotes the receive counter of that moment. */
  function Stamp(controls: seq<Control>, nr: U16): (ws: seq<Wire>)
    ensures |ws| == |controls|
    ensures forall i :: 0 <= i < |ws| ==> ws[i] == Wire(controls[i].ns, nr, Some(controls[i].body))
  {
    seq(|controls|, i requires 0 <= i < |controls| => Wire(controls[i].ns, nr, Some(controls[i].body)))
  }

  function Transmissions(o: Outcome): seq<Wire>
    requires o.first + o.count <= |o.next.controls|
  {
    (if o.zlb then [Wire(o.next.ns, o.next.nr, None)] else []) +
    Stamp(o.next.controls[o.first..o.first + o.count], o.next.nr)
  }

  class Tunnel {
    var ns: U16
    var nr: U16
    var controls: seq<Control>
    var controlc: U16
    var window: U16
    var tries: int
    var retry: int

    predicate Valid()
      reads this
    {
      controlc == |controls|
    }

    function State(): TunnelState
      reads this
    {
      TunnelState(ns, nr, controls, window, tries, retry)
    }

    /** A tunnel as processudp creates it, with the default window. */
    constructor ()
      ensures Valid() && State() == TunnelState(0, 0, [], 4, 0, 0)
    {
      ns, nr, controls, controlc, window, tries, retry := 0, 0, [], 0, 4, 0, 0;
    }

    /** tunnelsend for a control message: sets the resend deadline and quotes `nr`. */
    method Send(c: Control, now: int) returns (w: Wire)
      modifies this`retry
      ensures State() == old(State()).(retry := Backoff(tries, now))
      ensures w == Wire(c.ns, nr, Some(c.body))
    {
      retry := Backoff(tries, now);
      w := Wire(c.ns, nr, Some(c.body));
    }

    method ControlNull(now: int) returns (sent: seq<Wire>)
      requires Valid()
      modifies this
      ensures Valid()
      ensures var o := NullStep(old(State()), now); State() == o.next && sent == Transmissions(o)
    {
      sent := [];
      if controlc != 0 { return; }
      retry := Backoff(tries, now);
      sent := [Wire(ns, nr, None)];
    }

    method ControlAdd(body: Message, now: int) returns (sent: seq<Wire>)
      requires Valid() && controlc < 0xFFFF
      modifies this
      ensures Valid()
      ensures var o := AddStep(old(State()), body, now); State() == o.next && sent == Transmissions(o)
    {
      sent := [];
      var c := Control(ns, body);
      ns := Mod16(ns + 1);
      controls := controls + [c];
      controlc := controlc + 1;
      if controlc <= window {
        tries := 0;
        var w := Send(c, now);
        sent := [w];
      }
    }

    /** The loop of processudp that frees what `r` acknowledges. */
    method DropAcknowledged(r: U16) returns (k: nat)
      requires Valid()
      modifies this`controls, this`controlc, this`tries
      ensures Valid() && k == Acknowledged(old(State()), r)
      ensures controls == old(controls)[k..] && tries == if k > 0 then 0 else old(tries)
    {
      k := 0;
      ghost var total := Acknowledged(State(), r);
      while controlc > 0 && Mod16(ns - controlc - r) >= SEQ_MOD / 2
        invariant Valid() && k <= total && controlc == old(controlc) - k
        invariant controls == old(controls)[k..] && tries == if k > 0 then 0 else old(tries)
        invariant controlc == 0 || (Mod16(ns - controlc - r) >= SEQ_MOD / 2 <==> k < total)
        decreases controlc
      {
        controls := controls[1..];
        controlc := controlc - 1;
        tries := 0;
        k := k + 1;
      }
    }

    /** The loop of processudp that sends what an acknowledgement brought inside the window. */
    method SendFrom(skip: nat, tosend: nat, now: int) returns (sent: seq<Wire>)
      requires skip <= |controls|
      modifies this`tries, this`retry
      ensures sent == Stamp(controls[skip..Min(skip + tosend, |controls|)], nr)
      ensures sent == [] ==> unchanged(this)
      ensures sent != [] ==> tries == 0 && retry == Backoff(0, now)
    {
      sent := [];
      var c, left := skip, tosend;
      while c < |controls| && left != 0
        invariant skip <= c <= |controls| && left == skip + tosend - c && left >= 0
        invariant sent == Stamp(controls[skip..c], nr)
        invariant if c > skip then tries == 0 && retry == Backoff(0, now) else unchanged(this)
        decreases left
      {
        tries := 0;
        var x := Send(controls[c], now);
        sent := sent + [x];
        c := c + 1;
        left := left - 1;
      }
    }

    /** The acknowledgement and window part of processudp, up to the hand-over of the message. */
    method Receive(w: Wire, now: int) returns (sent: seq<Wire>, delivered: Option<Message>)
      requires Valid()
      modifies this
      ensures Valid()
      ensures var o := ReceiveStep(old(State()), w, now);
              State() == o.next && sent == Transmissions(o) && delivered == o.delivered
    {
      hide Mod16, Backoff, Acknowledged, Stamp;
      sent, delivered := [], None;
      if w.ns != nr {
        if w.body.Some? {
          sent := ControlNull(now);
        }
        return;
      }
      var k := DropAcknowledged(w.nr);
      var skip: int := window - k;
      if w.body.Some? { nr := Mod16(w.ns + 1); }
      if skip < 0 { skip := 0; }
      if skip < controlc {
        sent := SendFrom(skip, window - skip, now);
      }
      if controlc == 0 { retry := 0; }
      delivered := w.body;
    }

    /** The resend part of regular_cleanups. */
    method CheckResend(now: int) returns (sent: seq<Wire>)
      requires Valid()
      modifies this
      ensures Valid()
      ensures var o := TimeoutStep(old(State()), now); State() == o.next && sent == Transmissions(o)
    {
      sent := [];
      if retry != 0 && controlc != 0 && retry <= now {
        tries := tries + 1;
        if tries > MAX_TRIES {
          Kill();
        } else {
          var c, left := 0, window;
          ghost var t0 := State();
          while c < |controls| && left != 0
            invariant 0 <= c <= |controls| && left == window - c && Valid()
            invariant sent == Stamp(controls[0..c], nr)
            invariant State() == if c > 0 then t0.(retry := Backoff(t0.tries, now)) else t0
            decreases left
          {
            var x := Send(controls[c], now);
            sent := sent + [x];
            c := c + 1;
            left := left - 1;
          }
        }
      }
    }

    /** tunnelkill: the queue is freed message by message, then the tunnel is cleared. */
    method Kill()
      requires Valid()
      modifies this
      ensures Valid() && State() == Killed
    {
      while controls != []
        invariant Valid()
        decreases |controls|
      {
        controls := controls[1..];
        controlc := controlc - 1;
      }
      ns, nr, window, tries, retry := 0, 0, 0, 0, 0;
    }
  }
}
