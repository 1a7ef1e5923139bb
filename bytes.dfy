/**
 * Fixed-width integers of the bridge and the byte orders its packets use.
 * Widths are written as subset types of `int`, so every wrap-around of the
 * source is spelled out where it happens.
 */
module Bytes {

  type uint8 = x: int | 0 <= x < 0x100
  type uint16 = x: int | 0 <= x < 0x1_0000
  type uint32 = x: int | 0 <= x < 0x1_0000_0000

  /** A C# `(ushort)` cast of a non-negative int: keeps the low 16 bits. */
  function ToUShort(n: nat): (r: uint16)
    ensures n < 0x1_0000 ==> r == n
    ensures n >= 0x1_0000 ==> r < n
    ensures (n - r) % 0x1_0000 == 0
  {
    n % 0x1_0000
  }

  /** Two bytes, most significant first. */
  function BE16(v: uint16): (r: seq<uint8>)
    ensures |r| == 2
  {
    [v / 0x100, v % 0x100]
  }

  /** Reads two bytes, most significant first; the inverse of BE16. */
  function FromBE16(hi: uint8, lo: uint8): (v: uint16)
    ensures BE16(v) == [hi, lo]
  {
    hi * 0x100 + lo
  }

  lemma BE16RoundTrip(v: uint16)
    ensures var b := BE16(v); FromBE16(b[0], b[1]) == v
  {
  }

  /** Euclidean division is determined by quotient and remainder. */
  lemma DivModOf(x: int, d: int, q: int, r: int)
    requires d > 0 && 0 <= r < d && x == q * d + r
    ensures x / d == q && x % d == r
  {
    var q', r' := x / d, x % d;
    assert (q - q') * d == r' - r;
    if q > q' {
      MulAtLeast(q - q', d);
    } else if q < q' {
      MulAtLeast(q' - q, d);
    }
  }

  lemma MulAtLeast(k: int, d: int)
    requires k >= 1 && d > 0
    ensures k * d >= d
  {
    assert k * d == (k - 1) * d + d;
  }

  /** Four bytes, most significant first. */
  function BE32(v: uint32): (r: seq<uint8>)
    ensures |r| == 4
  {
    [v / 0x100_0000, (v / 0x1_0000) % 0x100, (v / 0x100) % 0x100, v % 0x100]
  }

  /** Reads four bytes, most significant first; the inverse of BE32. */
  function FromBE32(b0: uint8, b1: uint8, b2: uint8, b3: uint8): (v: uint32)
    ensures BE32(v) == [b0, b1, b2, b3]
  {
    var v := b0 * 0x100_0000 + b1 * 0x1_0000 + b2 * 0x100 + b3;
    DivModOf(v, 0x100_0000, b0, b1 * 0x1_0000 + b2 * 0x100 + b3);
    DivModOf(v, 0x1_0000, b0 * 0x100 + b1, b2 * 0x100 + b3);
    DivModOf(b0 * 0x100 + b1, 0x100, b0, b1);
    DivModOf(v, 0x100, b0 * 0x1_0000 + b1 * 0x100 + b2, b3);
    DivModOf(b0 * 0x1_0000 + b1 * 0x100 + b2, 0x100, b0 * 0x100 + b1, b2);
    v
  }

  lemma BE32RoundTrip(v: uint32)
    ensures var b := BE32(v); FromBE32(b[0], b[1], b[2], b[3]) == v
  {
    var q1 := v / 0x100;
    var q2 := q1 / 0x100;
    DivModOf(v / 0x1_0000, 0x100, v / 0x100_0000, (v / 0x1_0000) % 0x100);
    assert v == q1 * 0x100 + v % 0x100;
    assert q1 == q2 * 0x100 + q1 % 0x100;
    DivModOf(v, 0x1_0000, q2, (q1 % 0x100) * 0x100 + v % 0x100);
    DivModOf(q2, 0x100, v / 0x100_0000, (v / 0x1_0000) % 0x100);
  }

  /** Four bytes, least significant first (the draxboard output convention). */
  function LE32(v: uint32): (r: seq<uint8>)
    ensures |r| == 4
  {
    [v % 0x100, (v / 0x100) % 0x100, (v / 0x1_0000) % 0x100, v / 0x100_0000]
  }

  /** Reads four bytes, least significant first; the inverse of LE32. */
  function FromLE32(b0: uint8, b1: uint8, b2: uint8, b3: uint8): (v: uint32)
    ensures LE32(v) == [b0, b1, b2, b3]
  {
    var v := FromBE32(b3, b2, b1, b0);
    LE32IsReversedBE32(v);
    v
  }

  /** Reading little-endian what was written big-endian reverses the bytes. */
  lemma LE32IsReversedBE32(v: uint32)
    ensures LE32(v) == [BE32(v)[3], BE32(v)[2], BE32(v)[1], BE32(v)[0]]
  {
  }

  /** `n` zero bytes: the contents of a freshly allocated C# `byte[n]`. */
  function Zeros(n: nat): (r: seq<uint8>)
    ensures |r| == n
    ensures forall i :: 0 <= i < n ==> r[i] == 0
  {
    seq(n, _ => 0)
  }
}
