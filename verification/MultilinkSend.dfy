/** The sending side: a packet is cut into fragments that go round the member links, and from end to end
    the receiver gets back exactly the packets. */
module MultilinkSend {
  import opened Common
  import opened Multilink
  import opened MultilinkDelivery
  import opened MultilinkRun

  const MINFRAGLEN := 64
  const MAXBUNDLESES := 12
  const MP_BEGIN: Byte := 0x80
  const MP_END: Byte := 0x40
  const MP_BOTH_BITS: Byte := 0xC0

  /** A fragment before it is numbered. */
  datatype Piece = Piece(flags: Byte, data: seq<Byte>)

  /** The protocol number of IP, which makeppp puts before the first fragment. */
  const PPPIP: seq<Byte> := [0x00, 0x21]

  function Divisor(links: nat): nat { if links > 2 then links / 2 + links % 2 else links }

  /** Everything after the first fragment: pieces of `f` bytes, until no more than `last` remain. */
  function Rest(p: seq<Byte>, f: nat, last: nat): (ps: seq<Piece>)
    requires f > 0
    ensures |ps| >= 1
    decreases |p|
  {
    if |p| <= last || |p| < f then [Piece(MP_END, p)] else [Piece(0, p[..f])] + Rest(p[f..], f, last)
  }

  function Pieces(p: seq<Byte>, links: nat): (ps: seq<Piece>)
    requires 2 <= links <= MAXBUNDLESES
    ensures |ps| >= 1
  {
    if |p| > MINFRAGLEN then
      var d := Divisor(links);
      var f := |p| / d;
      [Piece(MP_BEGIN, PPPIP + p[..f])] + Rest(p[f..], f, f + |p| % d)
    else [Piece(MP_BOTH_BITS, PPPIP + p)]
  }

  function Joined(ps: seq<Piece>): seq<Byte> { if ps == [] then [] else ps[0].data + Joined(ps[1..]) }

  /** The frame a receiver should see for a packet. */
  function Frame(p: seq<Byte>): seq<Byte> { PPPIP + p }

  /** The first piece begins, the last one ends, and no other does. */
  ghost predicate OneFrame(ps: seq<Piece>) {
    forall i :: 0 <= i < |ps| ==> (BeginBit(ps[i].flags) <==> i == 0) && (EndBit(ps[i].flags) <==> i == |ps| - 1)
  }

  function Times(k: nat, f: nat): nat { if k == 0 then 0 else Times(k - 1, f) + f }

  lemma RestUnfold(p: seq<Byte>, at: nat, f: nat, last: nat)
    requires at <= |p| && 0 < f <= last
    ensures if |p| - at <= last then Rest(p[at..], f, last) == [Piece(MP_END, p[at..])]
            else Rest(p[at..], f, last) == [Piece(0, p[at..at + f])] + Rest(p[at + f..], f, last)
  {
    if |p| - at > last { assert p[at..][..f] == p[at..at + f] && p[at..][f..] == p[at + f..]; }
  }

  lemma TimesOn(k: nat, f: nat)
    requires k > 0
    ensures Times(k, f) == Times(k - 1, f) + f && Times(k - 1, f) >= 0
  {
  }

  lemma RestLast(p: seq<Byte>, f: nat, last: nat)
    requires f > 0 && |p| <= last
    ensures var ps := Rest(p, f, last);
            ps == [Piece(MP_END, p)] && Joined(ps) == p && !BeginBit(ps[0].flags) && EndBit(ps[0].flags)
  {
    assert Joined([Piece(MP_END, p)]) == p + Joined([]);
  }

  lemma RestOn(p: seq<Byte>, f: nat, last: nat)
    requires 0 < f <= last < |p|
    ensures var ps, t := Rest(p, f, last), Rest(p[f..], f, last);
            && ps == [Piece(0, p[..f])] + t && Joined(ps) == p[..f] + Joined(t)
            && !BeginBit(ps[0].flags) && !EndBit(ps[0].flags)
  {
    hide Rest;
    RestUnfold(p, 0, f, last);
    assert p[0..] == p && p[0..0 + f] == p[..f];
    assert ([Piece(0, p[..f])] + Rest(p[f..], f, last))[1..] == Rest(p[f..], f, last);
  }

  /** Pieces after the first: none begins, only the last ends, and together they are `p`. With `k` full
      pieces before the last one, that one has exactly `last` bytes. */
  lemma {:induction false} RestIs(p: seq<Byte>, f: nat, last: nat, k: nat)
    requires 0 < f <= last && |p| == Times(k, f) + last
    ensures var ps := Rest(p, f, last);
            && |ps| == k + 1 && Joined(ps) == p && |ps[k].data| == last
            && (forall i :: 0 <= i <= k ==> !BeginBit(ps[i].flags) && (EndBit(ps[i].flags) <==> i == k))
            && (forall i :: 0 <= i < k ==> |ps[i].data| == f)
    decreases k
  {
    hide Rest, Joined, BeginBit, EndBit;
    var ps := Rest(p, f, last);
    if k == 0 {
      RestLast(p, f, last);
    } else {
      RestOn(p, f, last);
      TimesOn(k, f);
      var t := Rest(p[f..], f, last);
      RestIs(p[f..], f, last, k - 1);
      assert forall i :: 1 <= i <= k ==> ps[i] == t[i - 1];
      assert p == p[..f] + p[f..];
    }
  }

  /** The sizes of the fragments a packet is cut into. */
  lemma Sizes(len: nat, links: nat)
    requires 2 <= links <= MAXBUNDLESES && len > MINFRAGLEN
    ensures var d := Divisor(links); var f := len / d; var last := f + len % d;
            2 <= d <= 6 && 0 < f <= last && len - f == Times(d - 2, f) + last && last <= len / 2 + 5
  {
    var d := Divisor(links);
    var f := len / d;
    TimesIs(d - 2, f);
    assert len == d * f + len % d;
    if d == 2 {
    } else if d == 3 {
    } else if d == 4 {
    } else if d == 5 {
    } else {
      assert d == 6;
    }
  }

  lemma TimesIs(k: nat, f: nat)
    requires k <= 4
    ensures Times(k, f) ==
            if k == 0 then 0 else if k == 1 then f else if k == 2 then 2 * f else if k == 3 then 3 * f else 4 * f
  {
    assert k == 4 ==> Times(k, f) == Times(2, f) + 2 * f;
  }

  /** The cut is a partition: the pieces joined are the frame, only the first begins and only the last ends,
      none is empty, and there are as many as the divisor says. */
  lemma PiecesAre(p: seq<Byte>, links: nat)
    requires 2 <= links <= MAXBUNDLESES
    ensures var ps := Pieces(p, links);
            && Joined(ps) == Frame(p) && |ps| == (if |p| > MINFRAGLEN then Divisor(links) else 1)
            && OneFrame(ps)
            && (forall i :: 0 <= i < |ps| ==> ps[i].data != [] && |ps[i].data| <= |p| / 2 + MINFRAGLEN + 7)
  {
    if |p| > MINFRAGLEN {
      LongPieces(p, links);
    } else {
      assert Pieces(p, links) == [Piece(MP_BOTH_BITS, PPPIP + p)];
      assert Joined(Pieces(p, links)) == PPPIP + p + Joined([]);
    }
  }

  lemma LongPieces(p: seq<Byte>, links: nat)
    requires 2 <= links <= MAXBUNDLESES && |p| > MINFRAGLEN
    ensures var ps := Pieces(p, links);
            && Joined(ps) == Frame(p) && |ps| == Divisor(links)
            && OneFrame(ps)
            && (forall i :: 0 <= i < |ps| ==> ps[i].data != [] && |ps[i].data| <= |p| / 2 + 7)
  {
    hide Rest, Joined, BeginBit, EndBit;
    var d := Divisor(links);
    var f := |p| / d;
    var last := f + |p| % d;
    Sizes(|p|, links);
    hide Divisor;
    RestIs(p[f..], f, last, d - 2);
    FirstPiece(Piece(MP_BEGIN, PPPIP + p[..f]), Rest(p[f..], f, last), p[f..]);
    assert PPPIP + p[..f] + p[f..] == PPPIP + p;
  }

  /** A first piece before the others. */
  lemma FirstPiece(x: Piece, t: seq<Piece>, q: seq<Byte>)
    requires x.flags == MP_BEGIN && Joined(t) == q && t != []
    requires forall i :: 0 <= i < |t| ==> !BeginBit(t[i].flags) && (EndBit(t[i].flags) <==> i == |t| - 1)
    ensures var ps := [x] + t;
            && Joined(ps) == x.data + q
            && OneFrame(ps)
  {
    BeginOnly();
    hide BeginBit, EndBit;
    var ps := [x] + t;
    assert ps[1..] == t;
    forall i | 0 <= i < |ps|
      ensures (BeginBit(ps[i].flags) <==> i == 0) && (EndBit(ps[i].flags) <==> i == |ps| - 1)
    {
      if i > 0 { assert ps[i] == t[i - 1]; }
    }
  }

  lemma BeginOnly()
    ensures BeginBit(MP_BEGIN) && !EndBit(MP_BEGIN)
  {
  }

  /** More than 64 bytes are cut into one piece for every two links, or one each for two: all alike, but that the first
      also carries the protocol and the last what remains of the division. */
  lemma PieceSizes(p: seq<Byte>, links: nat, i: nat)
    requires 2 <= links <= MAXBUNDLESES && i < |Pieces(p, links)|
    ensures var ps := Pieces(p, links); var n := if links == 2 then 2 else (links + 1) / 2;
            if |p| <= 64 then |ps| == 1 && |ps[0].data| == 2 + |p|
            else
              && |ps| == n
              && |ps[i].data| == (if i == 0 then 2 else 0) + |p| / n + if i == n - 1 then |p| % n else 0
  {
    hide Rest;
    if |p| > MINFRAGLEN {
      var d := Divisor(links);
      var f := |p| / d;
      Sizes(|p|, links);
      RestIs(p[f..], f, f + |p| % d, d - 2);
    }
  }

  // ---- sending ----

  /** What goes out on a session: flags and the low 24 bits of the number, then the data. */
  datatype Wire = Wire(session: nat, flags: Byte, low: nat, data: seq<Byte>)

  function Following(c: nat, n: nat): (t: nat)
    requires n > 0
    ensures t < n
  {
    (c + 1) % n
  }

  /** The member whose turn it is after `k` fragments. */
  function Turn(c: nat, k: nat, n: nat): (t: nat)
    requires n > 0
    ensures k > 0 ==> t < n
  {
    if k == 0 then c else Following(Turn(c, k - 1, n), n)
  }

  /** A piece on its session. */
  function WireOf(x: Piece, session: nat, num: nat): Wire { Wire(session, x.flags, num % MAX_SEQ, x.data) }

  /** The `i`-th piece goes out on the member whose turn it then is. */
  function WireAt(ps: seq<Piece>, members: seq<nat>, c: nat, num: nat, i: nat): Wire
    requires members != [] && i < |ps|
  {
    var t := Turn(c, i + 1, |members|);
    WireOf(ps[i], members[t], num + i)
  }

  function Wires(ps: seq<Piece>, members: seq<nat>, c: nat, num: nat): (ws: seq<Wire>)
    requires members != []
    ensures |ws| == |ps| && forall i :: 0 <= i < |ps| ==> ws[i] == WireAt(ps, members, c, num, i)
  {
    seq(|ps|, i requires 0 <= i < |ps| => WireAt(ps, members, c, num, i))
  }

  /** After `k` fragments it is the turn of the member `k` places on, cyclically. */
  lemma {:induction false} TurnIs(c: nat, k: nat, n: nat)
    requires k > 0 && n > 0
    ensures Turn(c, k, n) == (c + k) % n
    decreases k
  {
    hide Following;
    if k > 1 {
      TurnIs(c, k - 1, n);
      FollowingIs(c + k - 1, n);
    } else {
      assert Turn(c, 0, n) == c;
      FollowingOne(c, n);
    }
  }

  lemma FollowingOne(c: nat, n: nat)
    requires n > 0
    ensures Following(c, n) == (c + 1) % n
  {
  }

  lemma FollowingIs(x: nat, n: nat)
    requires n > 0
    ensures Following(x % n, n) == (x + 1) % n
  {
    var q, r := (x % n + 1) / n, (x % n + 1) % n;
    assert x + 1 == (x / n + q) * n + r;
    Remainder(x + 1, n, x / n + q, r);
  }

  lemma OneOrMore(d: int, n: nat)
    requires d >= 1
    ensures d * n >= n
  {
    assert d * n == (d - 1) * n + n;
  }

  lemma Remainder(x: int, n: nat, q: int, r: nat)
    requires x == q * n + r && r < n
    ensures x % n == r
  {
    var q', r' := x / n, x % n;
    assert x == n * q' + r';
    assert (q - q') * n == r' - r;
    assert (q' - q) * n == r - r';
    if q > q' { OneOrMore(q - q', n); }
    if q < q' { OneOrMore(q' - q, n); }
  }

  /** The pieces go out one to a link, round the links, numbered on in 24 bits. */
  lemma RoundTheLinks(ps: seq<Piece>, members: seq<nat>, c: nat, num: nat, i: nat)
    requires members != [] && i < |ps|
    ensures var n := |members|;
            (c + i + 1) % n < n &&
            Wires(ps, members, c, num)[i] ==
              Wire(members[(c + i + 1) % n], ps[i].flags, (num + i) % 0x100_0000, ps[i].data)
  {
    hide Turn;
    TurnIs(c, i + 1, |members|);
  }

  lemma WiresMore(ps: seq<Piece>, x: Piece, members: seq<nat>, c: nat, num: nat)
    requires members != []
    ensures Wires(ps + [x], members, c, num) ==
            Wires(ps, members, c, num) + [WireOf(x, members[Turn(c, |ps| + 1, |members|)], num + |ps|)]
  {
    hide Turn;
  }

  lemma LowBits(x: nat)
    ensures x % WORD % MAX_SEQ == x % MAX_SEQ
  {
    assert x == WORD * (x / WORD) + x % WORD;
    assert WORD == MAX_SEQ * 0x100;
  }

  lemma NextWord(x: nat)
    ensures (x % WORD + 1) % WORD == (x + 1) % WORD
  {
  }

  lemma DivisorIs(links: nat)
    ensures Divisor(links) == if links > 2 then links / 2 + links % 2 else links
  {
  }

  lemma PiecesUnfold(p: seq<Byte>, links: nat)
    requires 2 <= links <= MAXBUNDLESES
    ensures var d := Divisor(links); d > 0 && var f := |p| / d;
            if |p| > MINFRAGLEN then
              f > 0 && Pieces(p, links) == [Piece(MP_BEGIN, PPPIP + p[..f])] + Rest(p[f..], f, f + |p| % d)
            else Pieces(p, links) == [Piece(MP_BOTH_BITS, PPPIP + p)]
  {
    hide Rest;
    if |p| > MINFRAGLEN { Sizes(|p|, links); }
  }

  /** The sending half of a bundle: the sessions that are open, whose turn it is, and the next number. */
  class Splitter {
    const members: seq<nat>
    var current_ses: nat
    var seq_num_t: U32
    var sent: seq<Wire>

    /** makeppp and tunnelsend on the session whose turn is next: one more piece is out. */
    method Emit(x: Piece, ghost was: seq<Wire>, ghost done: seq<Piece>, ghost c: nat, ghost num: U32)
      requires Emitted(was, done, c, num)
      modifies this
      ensures Emitted(was, done + [x], c, num)
    {
      hide Wires;
      WiresMore(done, x, members, c, num);
      LowBits(num + |done|);
      NextWord(num + |done|);
      current_ses := (current_ses + 1) % |members|;
      sent := sent + [Wire(members[current_ses], x.flags, seq_num_t % MAX_SEQ, x.data)];
      seq_num_t := (seq_num_t + 1) % WORD;
    }

    /** The multilink part of processipout. */
    method Send(buf: seq<Byte>)
      requires 2 <= |members| <= MAXBUNDLESES
      modifies this
      ensures Emitted(old(sent), Pieces(buf, |members|), old(current_ses), old(seq_num_t))
    {
      hide Emitted, Pieces, Rest, Divisor;
      PiecesUnfold(buf, |members|);
      ghost var was, done, c, num := sent, [], current_ses, seq_num_t;
      NothingEmitted();
      if |buf| > MINFRAGLEN {
        var divisor := |members|;
        if divisor > 2 { divisor := divisor / 2 + divisor % 2; }
        DivisorIs(|members|);
        Sizes(|buf|, |members|);
        var fraglen := |buf| / divisor;
        var last_fraglen := fraglen + |buf| % divisor;
        var remain := |buf|;
        Emit(Piece(MP_BEGIN, PPPIP + buf[..fraglen]), was, done, c, num);
        done := done + [Piece(MP_BEGIN, PPPIP + buf[..fraglen])];
        remain := remain - fraglen;
        while remain > last_fraglen
          invariant 0 <= remain <= |buf|
          invariant Pieces(buf, |members|) == done + Rest(buf[|buf| - remain..], fraglen, last_fraglen)
          invariant Emitted(was, done, c, num)
        {
          ghost var at := |buf| - remain;
          var x := Piece(0, buf[|buf| - remain..|buf| - remain + fraglen]);
          RestUnfold(buf, at, fraglen, last_fraglen);
          Emit(x, was, done, c, num);
          done := done + [x];
          remain := remain - fraglen;
        }
        RestUnfold(buf, |buf| - remain, fraglen, last_fraglen);
        Emit(Piece(MP_END, buf[|buf| - remain..]), was, done, c, num);
      } else {
        Emit(Piece(MP_BOTH_BITS, PPPIP + buf), was, done, c, num);
        assert done + [Piece(MP_BOTH_BITS, PPPIP + buf)] == Pieces(buf, |members|);
      }
    }

    lemma NothingEmitted()
      requires members != []
      ensures Emitted(sent, [], current_ses, seq_num_t)
    {
    }

    ghost predicate Emitted(was: seq<Wire>, done: seq<Piece>, c: nat, num: U32)
      reads this
    {
      && members != [] && sent == was + Wires(done, members, c, num)
      && current_ses == Turn(c, |done|, |members|) && seq_num_t == (num + |done|) % WORD
    }
  }

  /** Sending goes on where it stopped: two batches are one. */
  lemma WiresJoin(a: seq<Piece>, b: seq<Piece>, members: seq<nat>, c: nat, num: nat)
    requires members != []
    ensures Wires(a + b, members, c, num) ==
            Wires(a, members, c, num) + Wires(b, members, Turn(c, |a|, |members|), num + |a|)
  {
    hide Turn;
    var l := Wires(a + b, members, c, num);
    var r := Wires(a, members, c, num) + Wires(b, members, Turn(c, |a|, |members|), num + |a|);
    forall i | 0 <= i < |l|
      ensures l[i] == r[i]
    {
      if i >= |a| { TurnJoin(c, |a|, i - |a| + 1, |members|); }
    }
  }

  lemma {:induction false} TurnJoin(c: nat, j: nat, k: nat, n: nat)
    requires n > 0
    ensures Turn(c, j + k, n) == Turn(Turn(c, j, n), k, n)
    decreases k
  {
    hide Following;
    if k > 0 {
      TurnJoin(c, j, k - 1, n);
      assert j + k - 1 == j + (k - 1);
    }
  }

  // ---- end to end ----

  /** All packets cut up, one after the other. */
  function Fragments(packets: seq<seq<Byte>>, links: nat): seq<Piece>
    requires 2 <= links <= MAXBUNDLESES
    decreases |packets|
  {
    if packets == [] then [] else Pieces(packets[0], links) + Fragments(packets[1..], links)
  }

  function Numbered(ws: seq<Wire>): (s: seq<Slot>)
    ensures |s| == |ws| && forall q :: 0 <= q < |ws| ==> s[q] == Slot(ws[q].data, ws[q].flags, q % WORD)
  {
    seq(|ws|, q requires 0 <= q < |ws| => Slot(ws[q].data, ws[q].flags, q % WORD))
  }

  function Links(ws: seq<Wire>): (link: seq<nat>)
    ensures |link| == |ws| && forall q :: 0 <= q < |ws| ==> link[q] == ws[q].session
  {
    seq(|ws|, q requires 0 <= q < |ws| => ws[q].session)
  }

  function FramesOf(packets: seq<seq<Byte>>): (fs: seq<seq<Byte>>)
    ensures |fs| == |packets| && forall i :: 0 <= i < |packets| ==> fs[i] == Frame(packets[i])
  {
    seq(|packets|, i requires 0 <= i < |packets| => Frame(packets[i]))
  }

  /** The frame, with 4 bytes in front for processipin, fits the receiver's buffer. */
  predicate Fits(p: seq<Byte>) { 4 + |Frame(p)| <= MAXETHER }

  /** The numbered fragments from `b` on are those of `packets`. */
  ghost predicate Carries(s: seq<Slot>, b: nat, ps: seq<Piece>) {
    b + |ps| == |s| && forall i :: 0 <= i < |ps| ==> s[b + i].data == ps[i].data && s[b + i].flags == ps[i].flags
  }

  lemma {:induction false} LastIs(s: seq<Slot>, b: nat, e: nat)
    requires b <= e < |s| && Ends(s[e]) && forall q :: b <= q < e ==> !Ends(s[q])
    ensures LastOf(s, b) == Some(e)
    decreases e - b
  {
    if b < e { LastIs(s, b + 1, e); }
  }

  lemma {:induction false} WholeIs(s: seq<Slot>, b: nat, e: nat, ps: seq<Piece>)
    requires b <= e < |s| && |ps| == e - b + 1 && forall i :: 0 <= i < |ps| ==> s[b + i].data == ps[i].data
    ensures Whole(s, b, e) == Joined(ps)
    decreases e - b
  {
    assert s[b + 0].data == ps[0].data;
    if b < e {
      var t := ps[1..];
      forall i | 0 <= i < |t|
        ensures s[b + 1 + i].data == t[i].data
      {
        assert s[b + (i + 1)].data == ps[i + 1].data;
      }
      WholeIs(s, b + 1, e, t);
    } else {
      assert Joined(ps[1..]) == [] && Joined(ps) == ps[0].data + Joined(ps[1..]);
    }
  }

  /** One packet on the wire: where its fragments end, and what they make together. */
  lemma PacketAt(s: seq<Slot>, b: nat, p: seq<Byte>, links: nat, rest: seq<Piece>)
    requires 2 <= links <= MAXBUNDLESES && Carries(s, b, Pieces(p, links) + rest)
    ensures var e := b + |Pieces(p, links)| - 1;
            e < |s| && LastOf(s, b) == Some(e) && Whole(s, b, e) == Frame(p) && Carries(s, e + 1, rest)
  {
    hide Pieces, LastOf, Whole, Joined, BeginBit, EndBit, Begins, Ends, Carries, Frame;
    var ps := Pieces(p, links);
    PiecesAre(p, links);
    var e := b + |ps| - 1;
    assert e < |s| by { Carried(s, b, ps, rest); }
    forall q | b <= q <= e
      ensures s[q].data == ps[q - b].data && (Ends(s[q]) <==> q == e)
    {
      CarriedAt(s, b, ps, rest, q - b);
    }
    LastIs(s, b, e);
    assert forall i :: 0 <= i < |ps| ==> s[b + i].data == ps[i].data;
    WholeIs(s, b, e, ps);
    Carried(s, b, ps, rest);
  }

  lemma CarriedAt(s: seq<Slot>, b: nat, ps: seq<Piece>, rest: seq<Piece>, i: nat)
    requires Carries(s, b, ps + rest) && i < |ps|
    ensures b + i < |s| && s[b + i].data == ps[i].data && (Ends(s[b + i]) <==> EndBit(ps[i].flags))
  {
    assert (ps + rest)[i] == ps[i];
  }

  lemma Carried(s: seq<Slot>, b: nat, ps: seq<Piece>, rest: seq<Piece>)
    requires Carries(s, b, ps + rest)
    ensures b + |ps| <= |s| && Carries(s, b + |ps|, rest)
  {
    var all := ps + rest;
    forall i | 0 <= i < |rest|
      ensures s[b + |ps| + i].data == rest[i].data && s[b + |ps| + i].flags == rest[i].flags
    {
      assert all[|ps| + i] == rest[i];
      assert s[b + (|ps| + i)].data == all[|ps| + i].data;
    }
  }

  /** When everything has come, the frames are those of the packets. */
  lemma {:induction false} AllFrames(s: seq<Slot>, got: set<nat>, b: nat, packets: seq<seq<Byte>>, links: nat)
    requires 2 <= links <= MAXBUNDLESES && Carries(s, b, Fragments(packets, links))
    requires (forall q :: 0 <= q < |s| ==> q in got) && forall p :: p in packets ==> Fits(p)
    ensures Frames(s, got, b) == FramesOf(packets)
    decreases |packets|
  {
    hide Pieces, LastOf, Whole, Carries, Frame;
    if packets == [] {
      NothingCarried(s, b);
    } else {
      var p := packets[0];
      PacketAt(s, b, p, links, Fragments(packets[1..], links));
      var e := b + |Pieces(p, links)| - 1;
      AllFrames(s, got, e + 1, packets[1..], links);
      assert Fits(p);
      assert FramesOf(packets) == [Frame(p)] + FramesOf(packets[1..]);
    }
  }

  lemma NothingCarried(s: seq<Slot>, b: nat)
    requires Carries(s, b, [])
    ensures b == |s| && LastOf(s, b) == None
  {
  }

  /** Neighbouring pieces: one begins exactly where another ended. */
  lemma {:induction false} FragmentsAre(packets: seq<seq<Byte>>, links: nat)
    requires 2 <= links <= MAXBUNDLESES && forall p :: p in packets ==> Fits(p)
    ensures var fs := Fragments(packets, links);
            && (forall i :: 0 <= i < |fs| ==> fs[i].data != [] && 4 + |fs[i].data| <= MAXFRAGLEN)
            && (fs != [] ==> BeginBit(fs[0].flags))
            && (forall i :: 0 < i < |fs| ==> (BeginBit(fs[i].flags) <==> EndBit(fs[i - 1].flags)))
    decreases |packets|
  {
    hide Pieces, BeginBit, EndBit, Frame;
    if packets != [] {
      var p := packets[0];
      assert Fits(p);
      FitsIs(p);
      PiecesAre(p, links);
      FragmentsAre(packets[1..], links);
      Adjoin(Pieces(p, links), Fragments(packets[1..], links));
    }
  }

  lemma FitsIs(p: seq<Byte>)
    requires Fits(p)
    ensures |p| / 2 + MINFRAGLEN + 7 + 4 <= MAXFRAGLEN
  {
  }

  lemma Adjoin(a: seq<Piece>, b: seq<Piece>)
    requires OneFrame(a)
    requires a != [] && (b != [] ==> BeginBit(b[0].flags))
    requires forall i :: 0 < i < |b| ==> (BeginBit(b[i].flags) <==> EndBit(b[i - 1].flags))
    ensures var c := a + b;
            && BeginBit(c[0].flags)
            && forall i :: 0 < i < |c| ==> (BeginBit(c[i].flags) <==> EndBit(c[i - 1].flags))
  {
    hide BeginBit, EndBit;
    var c := a + b;
    forall i | 0 < i < |c|
      ensures BeginBit(c[i].flags) <==> EndBit(c[i - 1].flags)
    {
      if i < |a| {
        assert c[i] == a[i] && c[i - 1] == a[i - 1];
      } else {
        var k := i - |a|;
        assert c[i] == b[k];
        if k > 0 { assert c[i - 1] == b[k - 1]; }
      }
    }
  }

  /** The stream that is sent for some packets, from number 0 on. */
  function SentFor(packets: seq<seq<Byte>>, members: seq<nat>, c: nat): seq<Wire>
    requires 2 <= |members| <= MAXBUNDLESES
  {
    Wires(Fragments(packets, |members|), members, c, 0)
  }

  /** What is sent for any packets is a stream the receiver can take. */
  lemma SentIsStream(packets: seq<seq<Byte>>, members: seq<nat>, c: nat)
    requires 2 <= |members| <= MAXBUNDLESES && forall p :: p in packets ==> Fits(p)
    ensures var ws := SentFor(packets, members, c);
            && Stream(Numbered(ws)) && Routed(Numbered(ws), Links(ws), members)
            && Carries(Numbered(ws), 0, Fragments(packets, |members|))
            && forall q :: 0 <= q < |ws| ==> ws[q].low == q % MAX_SEQ
  {
    hide Fragments, Turn;
    FragmentsAre(packets, |members|);
    var fs := Fragments(packets, |members|);
    var ws := Wires(fs, members, c, 0);
    var s := Numbered(ws);
    assert forall q :: 0 <= q < |s| ==> s[q] == Slot(fs[q].data, fs[q].flags, q % WORD);
    forall q | 0 < q < |s|
      ensures Begins(s[q]) <==> Ends(s[q - 1])
    {
      assert BeginBit(fs[q].flags) <==> EndBit(fs[q - 1].flags);
    }
  }

  /** The frames of the packets fit the receiver's buffer, and when all has come all are complete. */
  lemma {:induction false} AllFit(s: seq<Slot>, got: set<nat>, b: nat, packets: seq<seq<Byte>>, links: nat)
    requires 2 <= links <= MAXBUNDLESES && Carries(s, b, Fragments(packets, links))
    requires (forall q :: 0 <= q < |s| ==> q in got) && forall p :: p in packets ==> Fits(p)
    ensures Fitting(s, b) && Bound(s, got, b) == |s|
    decreases |packets|
  {
    hide Pieces, LastOf, Whole, Carries, Frame;
    if packets == [] {
      NothingCarried(s, b);
    } else {
      var p := packets[0];
      PacketAt(s, b, p, links, Fragments(packets[1..], links));
      AllFit(s, got, b + |Pieces(p, links)|, packets[1..], links);
      assert Fits(p);
    }
  }

  /** End to end: packets cut up and sent round the links come out as they went in. Whatever the interleaving of
      the links, as long as M passes nothing that is missing, what has been delivered is an initial part of the
      packets, each once and byte for byte. When every fragment has arrived, it is all of them if and only if M
      never passed anything that was missing. */
  lemma PacketsArrive(b: Bundle, packets: seq<seq<Byte>>, members: seq<nat>, c: nat, qs: seq<nat>)
    requires 2 <= |members| <= MAXBUNDLESES && (forall p :: p in packets ==> Fits(p)) && Start(b, members)
    ensures var ws, top := SentFor(packets, members, c), Zero(|b.last|);
            var s, link := Numbered(ws), Links(ws);
            && Stream(s) && Routed(s, link, members) && Ready(b, members)
            && (Arriving(top, members, s, link, {}, qs) ==>
                  && Inside(qs, s)
                  && var out, calm := After(b, members, s, link, qs).frames, CalmRun(top, members, s, link, {}, qs);
                  && (calm ==> out <= FramesOf(packets))
                  && ((forall q :: 0 <= q < |s| ==> q in qs) ==> (out == FramesOf(packets) <==> calm)))
  {
    hide Fragments, Stream, Routed, Ready, Carries, Arriving, CalmRun, After, Frames, Bound, Start, Fits, Fitting,
         Bytes;
    SentIsStream(packets, members, c);
    var ws, top := SentFor(packets, members, c), Zero(|b.last|);
    var s, link := Numbered(ws), Links(ws);
    assert Ready(b, members) by { StartInv(b, members, s, link); }
    if Arriving(top, members, s, link, {}, qs) {
      DeliveryIff(b, members, s, link, qs);
      var all := Elems(qs) + Below(|s|);
      FramesGrow(s, Elems(qs), all, 0);
      AllFrames(s, all, 0, packets, |members|);
      if forall q :: 0 <= q < |s| ==> q in qs {
        AllFrames(s, Elems(qs), 0, packets, |members|);
        AllFit(s, Elems(qs), 0, packets, |members|);
      }
    }
  }

  /** With fewer than 2^32 fragments it never does. */
  lemma FewPacketsAreCalm(b: Bundle, packets: seq<seq<Byte>>, members: seq<nat>, c: nat, qs: seq<nat>)
    requires 2 <= |members| <= MAXBUNDLESES && (forall p :: p in packets ==> Fits(p)) && Start(b, members)
    requires |Fragments(packets, |members|)| < WORD
    ensures var ws, top := SentFor(packets, members, c), Zero(|b.last|);
            var s, link := Numbered(ws), Links(ws);
            Arriving(top, members, s, link, {}, qs) ==> CalmRun(top, members, s, link, {}, qs)
  {
    hide Fragments, Stream, Routed, Carries, Arriving, CalmRun, Frames, Bound, Start, Fits, Latest, Near, InOrder,
         Window, Words, Lead;
    SentIsStream(packets, members, c);
    var ws, top := SentFor(packets, members, c), Zero(|b.last|);
    var s, link := Numbered(ws), Links(ws);
    StartInv(b, members, s, link);
    if Arriving(top, members, s, link, {}, qs) { FirstRoundIsCalm(top, members, s, link, {}, qs); }
  }

  // ---- sending packet after packet ----

  /** The low bits of a number are those of its word. */
  lemma WiresOfWord(ps: seq<Piece>, members: seq<nat>, c: nat, num: nat)
    requires members != []
    ensures Wires(ps, members, c, num % WORD) == Wires(ps, members, c, num)
  {
    hide Turn;
    var l, r := Wires(ps, members, c, num % WORD), Wires(ps, members, c, num);
    forall i | 0 <= i < |l|
      ensures l[i] == r[i]
    {
      LowBits(num % WORD + i);
      LowBits(num + i);
      WordsAdd(num, i);
    }
  }

  lemma WordsAdd(x: nat, i: nat)
    ensures (x % WORD + i) % WORD == (x + i) % WORD
  {
    AddToWord(x, i);
  }

  lemma FragmentsMore(packets: seq<seq<Byte>>, p: seq<Byte>, links: nat)
    requires 2 <= links <= MAXBUNDLESES
    ensures Fragments(packets + [p], links) == Fragments(packets, links) + Pieces(p, links)
    decreases |packets|
  {
    hide Pieces;
    if packets == [] {
      assert packets + [p] == [p] && [p][1..] == [];
    } else {
      assert (packets + [p])[1..] == packets[1..] + [p];
      FragmentsMore(packets[1..], p, links);
    }
  }

  lemma NoFragments(packets: seq<seq<Byte>>, links: nat)
    requires 2 <= links <= MAXBUNDLESES && packets == []
    ensures Fragments(packets, links) == []
  {
  }

  /** Another packet's pieces follow on, in number and in turn. */
  lemma SentOn(done: seq<Piece>, ps: seq<Piece>, members: seq<nat>, c: nat, num: nat)
    requires members != []
    ensures var n := |members|;
            && Wires(done + ps, members, c, num) ==
               Wires(done, members, c, num) + Wires(ps, members, Turn(c, |done|, n), (num + |done|) % WORD)
            && Turn(c, |done + ps|, n) == Turn(Turn(c, |done|, n), |ps|, n)
            && (num + |done + ps|) % WORD == ((num + |done|) % WORD + |ps|) % WORD
  {
    hide Wires, Turn;
    assert |done + ps| == |done| + |ps|;
    WiresJoin(done, ps, members, c, num);
    WiresOfWord(ps, members, Turn(c, |done|, |members|), num + |done|);
    TurnJoin(c, |done|, |ps|, |members|);
    WordsAdd(num + |done|, |ps|);
  }

  /** Every packet that is routed to the bundle, one call after the other: all their fragments go out, numbered
      on from one packet to the next and round the links. */
  method SendAll(x: Splitter, packets: seq<seq<Byte>>)
    requires 2 <= |x.members| <= MAXBUNDLESES
    modifies x
    ensures x.Emitted(old(x.sent), Fragments(packets, |x.members|), old(x.current_ses), old(x.seq_num_t))
  {
    hide Pieces, Turn, Wires, Fragments;
    var i := 0;
    ghost var was, c, num := x.sent, x.current_ses, x.seq_num_t;
    x.NothingEmitted();
    assert Fragments(packets[..0], |x.members|) == [] by { NoFragments(packets[..0], |x.members|); }
    while i < |packets|
      invariant 0 <= i <= |packets| && x.Emitted(was, Fragments(packets[..i], |x.members|), c, num)
    {
      ghost var done := Fragments(packets[..i], |x.members|);
      ghost var ps := Pieces(packets[i], |x.members|);
      x.Send(packets[i]);
      assert packets[..i + 1] == packets[..i] + [packets[i]];
      FragmentsMore(packets[..i], packets[i], |x.members|);
      SentOn(done, ps, x.members, c, num);
      i := i + 1;
    }
    assert packets[..i] == packets;
  }
}
