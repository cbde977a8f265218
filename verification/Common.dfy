/** Machine integers and the small generic types the other modules share. */
module Common {
  type Byte = x: int | 0 <= x < 0x100
  type U16 = x: int | 0 <= x < 0x1_0000
  type U32 = x: int | 0 <= x < WORD

  datatype Option<+T> = None | Some(value: T)

  /** As many as there are 32-bit words. */
  const WORD := 0x1_0000_0000

  /** The two highest bits of a multilink header (RFC 1990, section 3): a fragment begins a packet, or ends one. */
  predicate BeginBit(flags: Byte) { flags / 0x80 % 2 == 1 }

  predicate EndBit(flags: Byte) { flags / 0x40 % 2 == 1 }

  function Min(a: int, b: int): int { if a < b then a else b }

  function Max(a: int, b: int): int { if a > b then a else b }

  function Zeros(n: nat): (s: seq<Byte>)
    ensures |s| == n && forall i :: 0 <= i < n ==> s[i] == 0
  {
    seq(n, _ => 0)
  }

  /** Network order: the most significant byte comes first. */
  function Be16(x: nat): (z: seq<Byte>)
    requires x < 0x1_0000
    ensures |z| == 2
  {
    [x / 0x100, x % 0x100]
  }

  function Val16(z: seq<Byte>, q: nat): (x: nat)
    requires q + 2 <= |z|
    ensures x < 0x1_0000
  {
    (z[q] as int) * 0x100 + z[q + 1] as int
  }

  function Be32(x: U32): (z: seq<Byte>)
    ensures |z| == 4
  {
    [x / 0x100_0000, x / 0x1_0000 % 0x100, x / 0x100 % 0x100, x % 0x100]
  }

  /** Writes `z` behind what is there. */
  method Append(b: array<Byte>, q: nat, z: seq<Byte>) returns (q': nat)
    requires q + |z| <= b.Length
    modifies b
    ensures q' == q + |z| && b[..q'] == old(b[..q]) + z
  {
    var i := 0;
    while i < |z|
      invariant 0 <= i <= |z| && b[..q + i] == old(b[..q]) + z[..i]
    {
      b[q + i] := z[i];
      i := i + 1;
    }
    q' := q + |z|;
  }

  /** A part of a slice is a slice. */
  lemma SubSlice<T>(z: seq<T>, q: nat, t: seq<T>, i: nat, j: nat)
    requires q + |t| <= |z| && z[q..q + |t|] == t && i <= j <= |t|
    ensures z[q + i..q + j] == t[i..j]
  {
    forall k | 0 <= k < j - i
      ensures z[q + i..q + j][k] == t[i..j][k]
    {
      assert z[q..q + |t|][i + k] == z[q + i + k];
    }
  }
}
