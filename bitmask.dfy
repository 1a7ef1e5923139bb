/**
 * A 16-bit button word, kept as its sixteen bits (bit 0 first), which is how
 * the bridge walks it bit by bit. `MaskOf` and `ValueOf` convert between a
 * `ushort` and its bits and are inverse to each other.
 */
module BitMask {
  import opened Bytes

  type Mask = s: seq<bool> | |s| == 16 witness [false, false, false, false, false, false, false, false,
                                                false, false, false, false, false, false, false, false]

  function Pow2(k: nat): (r: nat)
    ensures r >= 1
  {
    if k == 0 then 1 else 2 * Pow2(k - 1)
  }

  lemma Pow2Sixteen()
    ensures Pow2(16) == 0x1_0000
  {
    assert Pow2(4) == 16;
    assert Pow2(8) == 256;
    assert Pow2(12) == 4096;
  }

  /** The low `k` bits of `n`, least significant first. */
  function BitsLE(n: nat, k: nat): (r: seq<bool>)
    ensures |r| == k
  {
    if k == 0 then [] else [n % 2 == 1] + BitsLE(n / 2, k - 1)
  }

  /** The number whose bits, least significant first, are `bits`. */
  function ValueLE(bits: seq<bool>): (v: nat)
    ensures v < Pow2(|bits|)
  {
    if |bits| == 0 then 0 else (if bits[0] then 1 else 0) + 2 * ValueLE(bits[1..])
  }

  /** Splitting off the lowest bit: `n mod 2m` is the low bit plus twice `(n div 2) mod m`. */
  lemma ModTwice(n: nat, m: nat)
    requires m >= 1
    ensures n % (2 * m) == n % 2 + 2 * ((n / 2) % m)
  {
    var a, b := n / 2, n % 2;
    var c, d := a / m, a % m;
    assert n == c * (2 * m) + (2 * d + b);
    DivModOf(n, 2 * m, c, 2 * d + b);
  }

  lemma {:induction false} ValueOfBits(n: nat, k: nat)
    ensures ValueLE(BitsLE(n, k)) == n % Pow2(k)
  {
    if k > 0 {
      var bits := BitsLE(n, k);
      assert bits[1..] == BitsLE(n / 2, k - 1);
      ValueOfBits(n / 2, k - 1);
      ModTwice(n, Pow2(k - 1));
    }
  }

  lemma {:induction false} BitsOfValue(bits: seq<bool>)
    ensures BitsLE(ValueLE(bits), |bits|) == bits
  {
    if |bits| > 0 {
      var v := ValueLE(bits[1..]);
      var b := if bits[0] then 1 else 0;
      DivModOf(b + 2 * v, 2, v, b);
      BitsOfValue(bits[1..]);
      assert bits == [bits[0]] + bits[1..];
    }
  }

  /** The bits of a `ushort`, as `new BitArray(BitConverter.GetBytes(x))` lists them. */
  function MaskOf(n: uint16): (m: Mask)
    ensures ValueOf(m) == n
  {
    ValueOfBits(n, 16);
    Pow2Sixteen();
    BitsLE(n, 16)
  }

  /** The `ushort` whose bits are `m`. */
  function ValueOf(m: Mask): (n: uint16)
  {
    Pow2Sixteen();
    ValueLE(m)
  }

  lemma MaskValueRoundTrip(m: Mask)
    ensures MaskOf(ValueOf(m)) == m
  {
    BitsOfValue(m);
  }

  /** `(ushort)(1 << k)`: the single bit `k`. */
  function Bit(k: nat): (m: Mask)
    requires k < 16
    ensures forall i :: 0 <= i < 16 ==> (m[i] <==> i == k)
  {
    seq(16, i requires 0 <= i < 16 => i == k)
  }

  lemma {:induction false} ValueOfSingle(bits: seq<bool>, k: nat)
    requires k < |bits|
    requires forall i :: 0 <= i < |bits| ==> (bits[i] <==> i == k)
    ensures ValueLE(bits) == Pow2(k)
  {
    if k == 0 {
      ValueOfClear(bits[1..]);
    } else {
      ValueOfSingle(bits[1..], k - 1);
    }
  }

  /** The bit `k` as a number is `1 << k`. */
  lemma BitValue(k: nat)
    requires k < 16
    ensures ValueOf(Bit(k)) == Pow2(k)
  {
    ValueOfSingle(Bit(k), k);
  }

  const NoBits: Mask := [false, false, false, false, false, false, false, false,
                         false, false, false, false, false, false, false, false]

  function Or(a: Mask, b: Mask): (r: Mask)
    ensures forall i :: 0 <= i < 16 ==> (r[i] <==> a[i] || b[i])
  {
    seq(16, i requires 0 <= i < 16 => a[i] || b[i])
  }

  function And(a: Mask, b: Mask): (r: Mask)
    ensures forall i :: 0 <= i < 16 ==> (r[i] <==> a[i] && b[i])
  {
    seq(16, i requires 0 <= i < 16 => a[i] && b[i])
  }

  function Xor(a: Mask, b: Mask): (r: Mask)
    ensures forall i :: 0 <= i < 16 ==> (r[i] <==> a[i] != b[i])
  {
    seq(16, i requires 0 <= i < 16 => a[i] != b[i])
  }

  function Not(a: Mask): (r: Mask)
    ensures forall i :: 0 <= i < 16 ==> (r[i] <==> !a[i])
  {
    seq(16, i requires 0 <= i < 16 => !a[i])
  }

  /** `x != 0` for a word given by its bits. */
  predicate Any(a: Mask)
  {
    exists i :: 0 <= i < 16 && a[i]
  }

  lemma {:induction false} ValueOfClear(bits: seq<bool>)
    requires forall i :: 0 <= i < |bits| ==> !bits[i]
    ensures ValueLE(bits) == 0
  {
    if |bits| > 0 {
      ValueOfClear(bits[1..]);
    }
  }

  lemma NoBitsIsZero()
    ensures ValueOf(NoBits) == 0 && !Any(NoBits)
  {
    var z := NoBits;
    assert forall i :: 0 <= i < |z| ==> !z[i];
    ValueOfClear(z);
  }

  /** Testing a word against one bit reads that bit. */
  lemma AnyAndBit(a: Mask, k: nat)
    requires k < 16
    ensures Any(And(a, Bit(k))) <==> a[k]
  {
    if a[k] {
      assert And(a, Bit(k))[k];
    }
  }

  // ------------------------------------------------ the ushort operators

  /** Bit `k` of a number, `(n >> k) & 1`, by arithmetic. */
  predicate BitOf(n: nat, k: nat)
  {
    (n / Pow2(k)) % 2 == 1
  }

  /** Dividing by 2 and then by `m` is dividing by `2m`. */
  lemma DivTwice(n: nat, m: nat)
    requires m >= 1
    ensures n / (2 * m) == (n / 2) / m
  {
    var a, b := n / 2, n % 2;
    var c, d := a / m, a % m;
    assert n == c * (2 * m) + (2 * d + b);
    DivModOf(n, 2 * m, c, 2 * d + b);
  }

  lemma {:induction false} BitsLEBit(n: nat, width: nat, k: nat)
    requires k < width
    ensures BitsLE(n, width)[k] <==> BitOf(n, k)
  {
    if k > 0 {
      assert BitsLE(n, width)[k] == BitsLE(n / 2, width - 1)[k - 1];
      BitsLEBit(n / 2, width - 1, k - 1);
      DivTwice(n, Pow2(k - 1));
    }
  }

  /** The bits `MaskOf` lists are the arithmetic bits of the number. */
  lemma MaskOfBits(n: uint16)
    ensures forall k :: 0 <= k < 16 ==> (MaskOf(n)[k] <==> BitOf(n, k))
  {
    forall k | 0 <= k < 16 ensures MaskOf(n)[k] <==> BitOf(n, k) {
      BitsLEBit(n, 16, k);
    }
  }

  /** A `ushort` is determined by its sixteen bits. */
  lemma BitsDetermineValue(a: uint16, b: uint16)
    requires forall k :: 0 <= k < 16 ==> (BitOf(a, k) <==> BitOf(b, k))
    ensures a == b
  {
    MaskOfBits(a);
    MaskOfBits(b);
    assert MaskOf(a) == MaskOf(b);
  }

  /** The bits of `ValueOf(m)` are the bits of `m`. */
  lemma ValueOfBitsAre(m: Mask)
    ensures forall k :: 0 <= k < 16 ==> (BitOf(ValueOf(m), k) <==> m[k])
  {
    MaskValueRoundTrip(m);
    MaskOfBits(ValueOf(m));
  }

  /** `Or` on the bits is the `ushort` `x | y`: bit k is set iff it is set in x or in y. */
  lemma OrIsBitwiseOr(x: uint16, y: uint16)
    ensures forall k :: 0 <= k < 16 ==> (BitOf(ValueOf(Or(MaskOf(x), MaskOf(y))), k) <==> BitOf(x, k) || BitOf(y, k))
  {
    ValueOfBitsAre(Or(MaskOf(x), MaskOf(y)));
    MaskOfBits(x);
    MaskOfBits(y);
  }

  /** `And` on the bits is the `ushort` `x & y`: bit k is set iff it is set in both. */
  lemma AndIsBitwiseAnd(x: uint16, y: uint16)
    ensures forall k :: 0 <= k < 16 ==> (BitOf(ValueOf(And(MaskOf(x), MaskOf(y))), k) <==> BitOf(x, k) && BitOf(y, k))
  {
    ValueOfBitsAre(And(MaskOf(x), MaskOf(y)));
    MaskOfBits(x);
    MaskOfBits(y);
  }

  /** `Xor` on the bits is the `ushort` `x ^ y`: bit k is set iff x and y differ there. */
  lemma XorIsBitwiseXor(x: uint16, y: uint16)
    ensures forall k :: 0 <= k < 16 ==> (BitOf(ValueOf(Xor(MaskOf(x), MaskOf(y))), k) <==> BitOf(x, k) != BitOf(y, k))
  {
    ValueOfBitsAre(Xor(MaskOf(x), MaskOf(y)));
    MaskOfBits(x);
    MaskOfBits(y);
  }

  lemma {:induction false} ValueOfComplement(bits: seq<bool>, flipped: seq<bool>)
    requires |flipped| == |bits|
    requires forall i :: 0 <= i < |bits| ==> (flipped[i] <==> !bits[i])
    ensures ValueLE(bits) + ValueLE(flipped) == Pow2(|bits|) - 1
  {
    if |bits| > 0 {
      ValueOfComplement(bits[1..], flipped[1..]);
    }
  }

  /**
   * `Not` on the bits is `(ushort)~x`: C#'s `~x` is the int `-x - 1`, whose
   * low 16 bits are the `ushort` `0xFFFF - x`, every bit of x flipped.
   */
  lemma NotIsBitwiseNot(x: uint16)
    ensures ValueOf(Not(MaskOf(x))) == 0xFFFF - x
    ensures ValueOf(Not(MaskOf(x))) == (-(x as int) - 1) % 0x1_0000
    ensures forall k :: 0 <= k < 16 ==> (BitOf(ValueOf(Not(MaskOf(x))), k) <==> !BitOf(x, k))
  {
    ValueOfComplement(MaskOf(x), Not(MaskOf(x)));
    Pow2Sixteen();
    ValueOfBitsAre(Not(MaskOf(x)));
    MaskOfBits(x);
  }
}
