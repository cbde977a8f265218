/** The run-length code that packs session, bundle and tunnel structures into heartbeats. A count
    byte 1..127 announces that many literal non-zero bytes, 128 + n announces n zero bytes, and a
    zero count ends the stream. */
module Rle {
  import opened Common

  const MAX_RUN := 127

  // ---- the format ----

  datatype Token = Literal(bytes: seq<Byte>) | ZeroRun(n: nat) {
    predicate Valid() {
      match this
      case Literal(bytes) => 0 < |bytes| <= MAX_RUN
      case ZeroRun(n) => 0 < n <= MAX_RUN
    }

    /** The bytes the token stands for. */
    function Plain(): seq<Byte> {
      match this
      case Literal(bytes) => bytes
      case ZeroRun(n) => Zeros(n)
    }

    /** The bytes that stand for the token. */
    function Code(): (z: seq<Byte>)
      requires Valid()
      ensures |z| > 0 && z[0] != 0
    {
      match this
      case Literal(bytes) => [|bytes|] + bytes
      case ZeroRun(n) => [0x80 + n]
    }
  }

  datatype Stream = End | Next(token: Token, rest: Stream) {
    predicate Valid() { Next? ==> token.Valid() && rest.Valid() }

    function Plain(): seq<Byte> { if End? then [] else token.Plain() + rest.Plain() }

    function Code(): seq<Byte>
      requires Valid()
    {
      if End? then [] else token.Code() + rest.Code()
    }
  }

  // ---- packing ----

  /** How many bytes of `s` from `i` on are zero (or non-zero), counting at most `cap`. */
  function Run(s: seq<Byte>, i: nat, zero: bool, cap: nat): (k: nat)
    requires i <= |s|
    ensures k <= |s| - i && k <= cap
    ensures forall j :: i <= j < i + k ==> (s[j] == 0) == zero
    ensures i + k < |s| && k < cap ==> (s[i + k] == 0) != zero
    decreases |s| - i
  {
    if i == |s| || cap == 0 || (s[i] == 0) != zero then 0 else 1 + Run(s, i + 1, zero, cap - 1)
  }

  /** The next token, with `room` bytes to write: the longest run that fits. */
  function Head(s: seq<Byte>, i: nat, room: int): (t: Token)
    requires i < |s| && room > 2
    ensures t.Valid() && 0 < |t.Plain()| <= |s| - i && |t.Code()| < room
    ensures t.Plain() == s[i..i + |t.Plain()|]
    ensures t.Literal? <==> s[i] != 0
    ensures t.Literal? ==> forall b :: b in t.bytes ==> b != 0
  {
    if s[i] != 0 then Literal(s[i..i + Run(s, i, false, Min(MAX_RUN, room - 2))])
    else
      var k := Run(s, i, true, MAX_RUN);
      assert Zeros(k) == s[i..i + k];
      ZeroRun(k)
  }

  /** The stream for `s` from `i` on, when `room` bytes may be written. */
  function Pack(s: seq<Byte>, i: nat, room: int): (ts: Stream)
    requires i <= |s|
    ensures ts.Valid() && (ts.End? || |ts.Code()| < room)
    decreases |s| - i
  {
    if i == |s| || room <= 2 then End
    else
      var t := Head(s, i, room);
      Next(t, Pack(s, i + |t.Plain()|, room - |t.Code()|))
  }

  lemma PackUnfold(s: seq<Byte>, i: nat, room: int)
    requires i < |s| && room > 2
    ensures var t, ts := Head(s, i, room), Pack(s, i, room);
            var rest := Pack(s, i + |t.Plain()|, room - |t.Code()|);
            && ts == Next(t, rest)
            && ts.Plain() == t.Plain() + rest.Plain() && ts.Code() == t.Code() + rest.Code()
  {
  }

  lemma PackNothing(s: seq<Byte>, i: nat, room: int)
    requires i == |s| || (i < |s| && room <= 2)
    ensures var ts := Pack(s, i, room); ts.Plain() == [] && ts.Code() == []
  {
  }

  /** A packed stream stands for a prefix of what was left of the input. */
  lemma {:induction false} PackIsPrefix(s: seq<Byte>, i: nat, room: int)
    requires i <= |s|
    ensures Pack(s, i, room).Plain() <= s[i..]
    decreases |s| - i
  {
    hide Pack, Head, Token.Plain, Stream.Plain, Token.Code, Stream.Code, Token.Valid, Stream.Valid;
    if i == |s| || room <= 2 {
      PackNothing(s, i, room);
    } else {
      PackUnfold(s, i, room);
      var t := Head(s, i, room);
      var k := |t.Plain()|;
      PackIsPrefix(s, i + k, room - |t.Code()|);
      assert s[i..] == s[i..i + k] + s[i + k..];
    }
  }

  /** A literal of n bytes costs n + 1, a zero run 1; a run ends only at the cap, at the end of the
      input or before a byte of the other kind. */
  lemma HeadSize(s: seq<Byte>, i: nat, room: int)
    requires i < |s| && 2 < room && |s| - i + 2 <= room
    ensures var t := Head(s, i, room); var k := |t.Plain()|;
            && 0 < k <= |s| - i && |t.Code()| == (if s[i] == 0 then 1 else k + 1)
            && (k == MAX_RUN || i + k == |s| || (s[i + k] == 0) != (s[i] == 0))
  {
  }

  /** The room in which every input of n bytes is packed, as `AmpleIff` shows. */
  function Ample(n: nat): nat { if n == 0 then 0 else n + n / 2 + 2 }

  /** With n bytes to go, n + n / 2 + 2 bytes of room are ample: everything is packed, at a cost of at most
      half as much again, rounded up. */
  lemma {:induction false} PackCost(s: seq<Byte>, i: nat, room: int)
    requires i <= |s| && room >= Ample(|s| - i)
    ensures var ts := Pack(s, i, room); |ts.Plain()| == |s| - i && |ts.Code()| <= |s| - i + (|s| - i + 1) / 2
    decreases |s| - i, 1
  {
    hide Pack, Head, Token.Plain, Stream.Plain, Token.Code, Stream.Code, Token.Valid, Stream.Valid;
    if i == |s| {
      PackNothing(s, i, room);
    } else {
      if s[i] == 0 {
        ZeroFirstCost(s, i, room);
      } else {
        HeadSize(s, i, room);
        PackUnfold(s, i, room);
        var t := Head(s, i, room);
        var i' := i + |t.Plain()|;
        if i' < |s| && s[i'] == 0 {
          ZeroFirstCost(s, i', room - |t.Code()|);
        } else {
          PackCost(s, i', room - |t.Code()|);
        }
      }
    }
  }

  lemma {:induction false} ZeroFirstCost(s: seq<Byte>, i: nat, room: int)
    requires i < |s| && s[i] == 0 && room >= |s| - i + (|s| - i + 1) / 2 + 1
    ensures var ts := Pack(s, i, room); |ts.Plain()| == |s| - i && |ts.Code()| <= |s| - i + (|s| - i) / 2
    decreases |s| - i, 0
  {
    hide Pack, Head, Token.Plain, Stream.Plain, Token.Code, Stream.Code, Token.Valid, Stream.Valid;
    HeadSize(s, i, room);
    PackUnfold(s, i, room);
    var t := Head(s, i, room);
    PackCost(s, i + |t.Plain()|, room - |t.Code()|);
  }

  /** The input that needs most: 1, 0, 1, 0 and so on. */
  function Alternating(n: nat): (s: seq<Byte>)
    ensures |s| == n && forall i :: 0 <= i < n ==> s[i] == (i + 1) % 2
  {
    seq(n, i requires 0 <= i < n => (i + 1) % 2)
  }

  /** In anything less than ample room it is cut short. */
  lemma {:induction false} AlternatingCutShort(n: nat, i: nat, room: int)
    requires i < n && i % 2 == 0 && room < Ample(n - i)
    ensures |Pack(Alternating(n), i, room).Plain()| < n - i
    decreases n - i
  {
    hide Pack, Head, Token.Plain, Stream.Plain, Token.Code, Stream.Code, Token.Valid, Stream.Valid, Run;
    var s := Alternating(n);
    if room <= 2 {
      PackNothing(s, i, room);
    } else {
      SingleRun(s, i, room);
      PackUnfold(s, i, room);
      if room - 2 <= 2 {
        PackNothing(s, i + 1, room - 2);
      } else {
        SingleRun(s, i + 1, room - 2);
        PackUnfold(s, i + 1, room - 2);
        AlternatingCutShort(n, i + 2, room - 3);
      }
    }
  }

  /** A byte between two of the other kind is a token of its own. */
  lemma SingleRun(s: seq<Byte>, i: nat, room: int)
    requires i < |s| && room > 2 && (i + 1 < |s| ==> (s[i] == 0) != (s[i + 1] == 0))
    ensures var t := Head(s, i, room); |t.Plain()| == 1 && |t.Code()| == if s[i] == 0 then 1 else 2
  {
  }

  /** Ample room, exactly: every input of n bytes is consumed if and only if there are n + n / 2 + 2 bytes
      of room, the loop wanting more than two bytes left. */
  lemma AmpleIff(n: nat, room: int)
    requires n > 0
    ensures (forall s: seq<Byte> :: |s| == n ==> |Pack(s, 0, room).Plain()| == n) <==> room >= n + n / 2 + 2
  {
    if room >= n + n / 2 + 2 {
      forall s: seq<Byte> | |s| == n
        ensures |Pack(s, 0, room).Plain()| == n
      {
        PackCost(s, 0, room);
      }
    } else {
      AlternatingCutShort(n, 0, room);
      assert |Pack(Alternating(n), 0, room).Plain()| != n;
    }
  }

  /** Zeros cost a byte for every 127. */
  lemma {:induction false} ZerosCost(s: seq<Byte>, i: nat, room: int)
    requires i <= |s| && |s| - i + 2 <= room && forall j :: i <= j < |s| ==> s[j] == 0
    ensures var ts := Pack(s, i, room); |ts.Code()| == (|s| - i + 126) / 127 && |ts.Plain()| == |s| - i
    decreases |s| - i
  {
    hide Pack, Head;
    if i == |s| {
      PackNothing(s, i, room);
    } else {
      PackUnfold(s, i, room);
      HeadSize(s, i, room);
      var t := Head(s, i, room);
      ZerosCost(s, i + |t.Plain()|, room - |t.Code()|);
    }
  }

  // ---- unpacking ----

  /** How many bytes of output the count byte at `q` stands for. */
  function Block(z: seq<Byte>, q: nat, room: nat): (k: nat)
    requires q < |z| && z[q] != 0
    ensures k <= room && (z[q] < 0x80 ==> q + k < |z|)
  {
    if z[q] >= 0x80 then Min(z[q] - 0x80, room) else Min(z[q], Min(|z| - q - 1, room))
  }

  /** Where the next count byte stands. */
  function Skip(z: seq<Byte>, q: nat, room: nat): (q': nat)
    requires q < |z| && z[q] != 0
    ensures q < q' <= |z|
  {
    if z[q] >= 0x80 then q + 1 else q + 1 + Block(z, q, room)
  }

  /** Where a reader of `z` at `q`, with `room` bytes of output, stops. */
  function Stop(z: seq<Byte>, q: nat, room: nat): (e: nat)
    requires q <= |z|
    ensures q <= e <= |z|
    decreases |z| - q
  {
    if q == |z| || room == 0 then q
    else if z[q] == 0 then q + 1
    else Stop(z, Skip(z, q, room), room - Block(z, q, room))
  }

  /** What the reader makes of it. */
  function Unpacked(z: seq<Byte>, q: nat, room: nat): (out: seq<Byte>)
    requires q <= |z|
    ensures |out| <= room
    decreases |z| - q
  {
    if q == |z| || room == 0 || z[q] == 0 then []
    else
      var k := Block(z, q, room);
      (if z[q] >= 0x80 then Zeros(k) else z[q + 1..q + 1 + k]) + Unpacked(z, Skip(z, q, room), room - k)
  }

  lemma BlockUnfold(z: seq<Byte>, q: nat, room: nat)
    requires q < |z| && z[q] != 0 && room > 0
    ensures var k, q' := Block(z, q, room), Skip(z, q, room);
            && Unpacked(z, q, room) ==
               (if z[q] >= 0x80 then Zeros(k) else z[q + 1..q + 1 + k]) + Unpacked(z, q', room - k)
            && Stop(z, q, room) == Stop(z, q', room - k)
  {
  }

  lemma UnpackToken(t: Token, z: seq<Byte>, q: nat, room: nat)
    requires t.Valid() && |t.Plain()| <= room
    requires q + |t.Code()| <= |z| && z[q..q + |t.Code()|] == t.Code()
    ensures Unpacked(z, q, room) == t.Plain() + Unpacked(z, q + |t.Code()|, room - |t.Plain()|)
    ensures Stop(z, q, room) == Stop(z, q + |t.Code()|, room - |t.Plain()|)
  {
    hide Unpacked, Stop, Zeros;
    assert z[q] == t.Code()[0];
    if t.Literal? {
      assert z[q + 1..q + 1 + |t.bytes|] == t.Code()[1..];
    }
    BlockUnfold(z, q, room);
  }

  lemma UnpackStop(z: seq<Byte>, q: nat, room: nat)
    requires q < |z| && z[q] == 0 && room > 0
    ensures Unpacked(z, q, room) == [] && Stop(z, q, room) == q + 1
  {
  }

  lemma UnpackNothing(z: seq<Byte>, q: nat, room: nat)
    requires q == |z| || (q < |z| && room == 0)
    ensures Unpacked(z, q, room) == [] && Stop(z, q, room) == q
  {
  }

  /** Read back with room to spare, a stream and its stop byte give exactly what the stream stands
      for, and whatever follows is left unread. */
  lemma {:induction false} UnpackStream(ts: Stream, z: seq<Byte>, q: nat, room: nat)
    requires ts.Valid() && |ts.Plain()| < room
    requires q + |ts.Code()| < |z| && z[q..q + |ts.Code()|] == ts.Code() && z[q + |ts.Code()|] == 0
    ensures Unpacked(z, q, room) == ts.Plain() && Stop(z, q, room) == q + |ts.Code()| + 1
    decreases ts
  {
    hide Unpacked, Stop, Token.Plain, Token.Code, Token.Valid;
    if ts.End? {
      UnpackStop(z, q, room);
    } else {
      var c := ts.token.Code();
      assert z[q..q + |c|] == ts.Code()[..|c|];
      assert z[q + |c|..q + |ts.Code()|] == ts.Code()[|c|..];
      UnpackToken(ts.token, z, q, room);
      UnpackStream(ts.rest, z, q + |c|, room - |ts.token.Plain()|);
    }
  }

  /** Round trip: whatever was packed is read back, and reading stops right after the stop byte. */
  lemma RoundTrip(s: seq<Byte>, dsize: int, tail: seq<Byte>, room: nat)
    requires |Pack(s, 0, dsize).Plain()| == |s| < room
    ensures var ts := Pack(s, 0, dsize);
            var z := ts.Code() + [0] + tail;
            Unpacked(z, 0, room) == s && Stop(z, 0, room) == |ts.Code()| + 1
  {
    var ts := Pack(s, 0, dsize);
    PackIsPrefix(s, 0, dsize);
    assert ts.Plain() == s[0..] == s;
    UnpackStream(ts, ts.Code() + [0] + tail, 0, room);
  }

  // ---- the code ----

  /** The inner loop that copies a run of non-zero bytes behind its count byte. */
  method CopyLiteral(src: array<Byte>, i0: nat, dst: array<Byte>, d0: nat) returns (count: nat)
    requires src != dst && i0 < src.Length && src[i0] != 0 && d0 + 2 < dst.Length
    modifies dst
    ensures count == Run(src[..], i0, false, Min(MAX_RUN, dst.Length - d0 - 2)) && i0 + count <= src.Length
    ensures d0 + 1 + count < dst.Length && dst[..d0 + 1] == old(dst[..d0 + 1])
    ensures dst[d0 + 1..d0 + 1 + count] == src[i0..i0 + count]
  {
    hide Run;
    count := 0;
    while i0 + count < src.Length && src[i0 + count] != 0 && count < MAX_RUN && dst.Length - (d0 + 1 + count) > 1
      invariant count <= Run(src[..], i0, false, Min(MAX_RUN, dst.Length - d0 - 2))
      invariant dst[..d0 + 1] == old(dst[..d0 + 1])
      invariant dst[d0 + 1..d0 + 1 + count] == src[i0..i0 + count]
    {
      dst[d0 + 1 + count] := src[i0 + count];
      count := count + 1;
    }
  }

  /** The inner loop that counts a run of zero bytes. */
  method CountZeros(src: array<Byte>, i0: nat) returns (count: nat)
    requires i0 < src.Length && src[i0] == 0
    ensures count == Run(src[..], i0, true, MAX_RUN)
  {
    hide Run;
    count := 0;
    while i0 + count < src.Length && src[i0 + count] == 0 && count < MAX_RUN
      invariant count <= Run(src[..], i0, true, MAX_RUN)
    {
      count := count + 1;
    }
  }

  /** One round of the outer loop: writes the next token at `d`. */
  method CompressToken(src: array<Byte>, i: nat, dst: array<Byte>, d: nat) returns (count: nat, d': nat)
    requires src != dst && i < src.Length && d + 2 < dst.Length
    modifies dst
    ensures var t := Head(src[..], i, dst.Length - d);
            && count == |t.Plain()| && d' == d + |t.Code()| && d' < dst.Length
            && dst[..d'] == old(dst[..d]) + t.Code()
  {
    hide Run;
    ghost var done := dst[..d];
    if src[i] != 0 {
      count := CopyLiteral(src, i, dst, d);
      dst[d] := count;
      d' := d + 1 + count;
      assert dst[d + 1..d'] == src[i..i + count];
      assert dst[..d] == done by { assert dst[..d] == old(dst[..d + 1])[..d]; }
      assert dst[..d'] == done + ([count] + dst[d + 1..d']);
    } else {
      count := CountZeros(src, i);
      dst[d] := count + 0x80;
      d' := d + 1;
      assert dst[..d'] == done + [0x80 + count];
    }
  }

  /** rle_compress: packs `src` into `dst`; `used` counts the stop byte, `taken` the source bytes. */
  method Compress(src: array<Byte>, dst: array<Byte>) returns (taken: nat, used: nat)
    requires src != dst && dst.Length >= 1
    modifies dst
    ensures used <= dst.Length
    ensures var ts := Pack(src[..], 0, dst.Length); taken == |ts.Plain()| && dst[..used] == ts.Code() + [0]
  {
    hide Head, Token.Plain, Stream.Plain, Token.Code, Stream.Code, Token.Valid, Stream.Valid, Pack;
    var i, d := 0, 0;
    ghost var s, whole := src[..], Pack(src[..], 0, dst.Length);
    while i < src.Length && dst.Length - d > 2
      invariant 0 <= i <= src.Length && 0 <= d < dst.Length && src[..] == s
      invariant var rest := Pack(s, i, dst.Length - d);
                whole.Code() == dst[..d] + rest.Code() && |whole.Plain()| == i + |rest.Plain()|
      decreases src.Length - i
    {
      ghost var done := dst[..d];
      PackUnfold(s, i, dst.Length - d);
      var count;
      count, d := CompressToken(src, i, dst, d);
      i := i + count;
    }
    PackNothing(s, i, dst.Length - d);
    dst[d] := 0;
    taken, used := i, d + 1;
  }

  /** The inner loop that writes a run of zero bytes. */
  method WriteZeros(dst: array<Byte>, n0: nat, total: nat) returns (n: nat)
    requires n0 <= dst.Length
    modifies dst
    ensures n == n0 + Min(total, dst.Length - n0)
    ensures dst[..n0] == old(dst[..n0]) && dst[n0..n] == Zeros(n - n0)
  {
    n := n0;
    var count := total;
    while count > 0 && n < dst.Length
      invariant n0 <= n <= dst.Length && count == total - (n - n0) && count >= 0
      invariant dst[..n0] == old(dst[..n0]) && dst[n0..n] == Zeros(n - n0)
      decreases count
    {
      dst[n] := 0;
      n, count := n + 1, count - 1;
    }
  }

  /** The inner loop that copies a literal run out of the stream. */
  method WriteLiteral(data: array<Byte>, q0: nat, end: nat, dst: array<Byte>, n0: nat, total: nat)
    returns (k: nat)
    requires q0 <= end <= data.Length && n0 <= dst.Length && data != dst
    modifies dst
    ensures k == Min(total, Min(end - q0, dst.Length - n0))
    ensures dst[..n0] == old(dst[..n0]) && dst[n0..n0 + k] == data[q0..q0 + k]
  {
    k := 0;
    var count := total;
    while count > 0 && q0 + k < end && n0 + k < dst.Length
      invariant n0 + k <= dst.Length && q0 + k <= end && count == total - k && count >= 0
      invariant dst[..n0] == old(dst[..n0]) && dst[n0..n0 + k] == data[q0..q0 + k]
      decreases count
    {
      dst[n0 + k] := data[q0 + k];
      k, count := k + 1, count - 1;
    }
  }

  /** One round of the outer loop, from a non-zero count byte at `q0`. */
  method DecompressBlock(data: array<Byte>, q0: nat, end: nat, dst: array<Byte>, n0: nat)
    returns (q: nat, n: nat)
    requires q0 < end <= data.Length && n0 < dst.Length && data != dst && data[q0] != 0
    modifies dst
    ensures var z, room := data[..end], dst.Length - n0;
            && n == n0 + Block(z, q0, room) && q == Skip(z, q0, room)
            && Unpacked(z, q0, room) == dst[n0..n] + Unpacked(z, q, dst.Length - n)
            && Stop(z, q0, room) == Stop(z, q, dst.Length - n)
    ensures dst[..n0] == old(dst[..n0])
  {
    hide Unpacked, Stop, Zeros;
    var count := data[q0];
    q := q0 + 1;
    BlockUnfold(data[..end], q0, dst.Length - n0);
    if count >= 0x80 {
      n := WriteZeros(dst, n0, count - 0x80);
    } else {
      var k := WriteLiteral(data, q, end, dst, n0, count);
      q, n := q + k, n0 + k;
      assert data[..end][q0 + 1..q] == data[q0 + 1..q] by {
        assert forall i :: q0 + 1 <= i < q ==> data[..end][i] == data[i];
      }
    }
  }

  /** rle_decompress: unpacks into `dst` from `data`, starting at `p` with bytes up to `end` to read. */
  method Decompress(data: array<Byte>, p: nat, end: nat, dst: array<Byte>) returns (q: nat, n: nat)
    requires p <= end <= data.Length && data != dst
    modifies dst
    ensures q == Stop(data[..end], p, dst.Length) && n <= dst.Length
    ensures dst[..n] == Unpacked(data[..end], p, dst.Length)
  {
    hide Unpacked, Stop, Skip, Block;
    q, n := p, 0;
    ghost var z := data[..end];
    while q < end && n < dst.Length
      invariant p <= q <= end && n <= dst.Length && data[..end] == z
      invariant Unpacked(z, p, dst.Length) == dst[..n] + Unpacked(z, q, dst.Length - n)
      invariant Stop(z, p, dst.Length) == Stop(z, q, dst.Length - n)
      decreases end - q
    {
      if data[q] == 0 {
        UnpackStop(z, q, dst.Length - n);
        q := q + 1;
        return;
      }
      ghost var n0, done := n, dst[..n];
      q, n := DecompressBlock(data, q, end, dst, n);
      assert dst[..n] == done + dst[n0..n];
    }
    UnpackNothing(z, q, dst.Length - n);
  }
}
