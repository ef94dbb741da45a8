/** Single-bit manipulation of integers, as the register driver performs it on
    Python integers: `value & (1 << i)`, `value | (1 << i)`, `value & ~(1 << i)`
    and `value ^ (1 << i)`.

    Integers are unbounded and a negative value is read in two's complement, as
    Python does. Every operation is defined arithmetically and specified by what
    it does to each bit; `BitsDetermine` shows that the bits pin down a value of
    bounded width, so those contracts are exact. */
module BitOps {

  /** `1 << n` */
  function Pow2(n: nat): (r: nat)
    ensures r >= 1
  {
    if n == 0 then 1 else 2 * Pow2(n - 1)
  }

  /** Python's `v >> n`. Dafny's `/` by a positive divisor rounds toward negative
      infinity, exactly as Python's `>>` does, so this is faithful for negative v
      as well. */
  function ShiftRight(v: int, n: nat): int
  {
    v / Pow2(n)
  }

  /** Bit i of v in two's complement: Python's `(v >> i) & 1`. */
  function Bit(v: int, i: nat): (b: int)
    ensures b == 0 || b == 1
  {
    ShiftRight(v, i) % 2
  }

  lemma MulAwayFromZero(d: int, x: int)
    requires d > 0
    ensures x >= 1 ==> d * x >= d
    ensures x <= -1 ==> d * x <= -d
  {
  }

  /** Division has one quotient. */
  lemma DivUnique(v: int, d: int, q: int, r: int)
    requires d > 0 && v == d * q + r && 0 <= r < d
    ensures v / d == q
  {
    var q' := v / d;
    assert d * (q - q') == v % d - r;
    MulAwayFromZero(d, q - q');
  }

  /** Quotient and remainder of q by d, given a split of q. */
  lemma DivMod(q: int, d: int, hi: int, lo: int)
    requires d > 0 && q == d * hi + lo && 0 <= lo < d
    ensures q / d == hi && q % d == lo
  {
    DivUnique(q, d, hi, lo);
  }

  /** Shifting right by one and then by d more is shifting by d + 1. */
  lemma DivTwice(v: int, d: int)
    requires d > 0
    ensures v / 2 / d == v / (2 * d)
  {
    var q := v / 2;
    assert v == (2 * d) * (q / d) + (2 * (q % d) + v % 2);
    DivUnique(v, 2 * d, q / d, 2 * (q % d) + v % 2);
  }

  /** Bit i + 1 of v is bit i of v shifted right by one. */
  lemma BitStep(v: int, i: nat)
    ensures Bit(v, i + 1) == Bit(v / 2, i)
  {
    DivTwice(v, Pow2(i));
  }

  /** `0 <= v < 2^n`: v fits in n unsigned bits. */
  predicate InRange(v: int, n: nat)
  {
    0 <= v < Pow2(n)
  }

  /** The bit pattern [bit n-1 of x, ..., bit 0 of x]: x's low n bits, most significant first. */
  function BitsMsbFirst(x: int, n: nat): (bs: seq<int>)
    ensures |bs| == n
    ensures forall k :: 0 <= k < n ==> bs[k] == Bit(x, n - 1 - k)
  {
    if n == 0 then [] else [Bit(x, n - 1)] + BitsMsbFirst(x, n - 1)
  }

  /** Every element is a single bit. */
  predicate IsBits(bits: seq<int>)
  {
    forall k :: 0 <= k < |bits| ==> bits[k] == 0 || bits[k] == 1
  }

  // ---------------------------------------------------------------------------
  // Arithmetic facts about adding or removing one power of two.

  lemma BitZero(v: int)
    ensures Bit(v, 0) == v % 2
  {
    assert Pow2(0) == 1;
  }

  /** Halving v + 2m: the quotient gains m and the parity is v's. */
  lemma HalfOfSum(v: int, m: int)
    ensures (v + 2 * m) / 2 == v / 2 + m && (v + 2 * m) % 2 == v % 2
  {
  }

  /** Adding one to an even value sets bit 0 and no other. */
  lemma AddOneBit(v: int, j: nat)
    requires v % 2 == 0
    ensures Bit(v + 1, j) == if j == 0 then 1 else Bit(v, j)
  {
    if j == 0 {
      BitZero(v + 1);
    } else {
      assert (v + 1) / 2 == v / 2;
      BitStep(v, j - 1);
      BitStep(v + 1, j - 1);
    }
  }

  /** Subtracting one from an odd value clears bit 0 and no other. */
  lemma SubOneBit(v: int, j: nat)
    requires v % 2 == 1
    ensures Bit(v - 1, j) == if j == 0 then 0 else Bit(v, j)
  {
    if j == 0 {
      BitZero(v - 1);
    } else {
      assert (v - 1) / 2 == v / 2;
      BitStep(v, j - 1);
      BitStep(v - 1, j - 1);
    }
  }

  /** Adding an even number 2m shifts the bits above 0 as adding m to v / 2 would. */
  lemma AddEvenBit(v: int, m: int, j: nat)
    ensures Bit(v + 2 * m, j) == if j == 0 then Bit(v, 0) else Bit(v / 2 + m, j - 1)
  {
    HalfOfSum(v, m);
    if j == 0 {
      BitZero(v);
      BitZero(v + 2 * m);
    } else {
      BitStep(v + 2 * m, j - 1);
    }
  }

  /** Bits of v plus or minus 2^i, for i > 0, in terms of v / 2: bit 0 is v's,
      bit j > 0 is bit j - 1 of v / 2 plus or minus 2^(i-1). */
  lemma ShiftPow2Step(v: int, i: nat, j: nat)
    requires i > 0
    ensures Bit(v + Pow2(i), j) == if j == 0 then Bit(v, 0) else Bit(v / 2 + Pow2(i - 1), j - 1)
    ensures Bit(v - Pow2(i), j) == if j == 0 then Bit(v, 0) else Bit(v / 2 - Pow2(i - 1), j - 1)
    ensures j > 0 ==> Bit(v, j) == Bit(v / 2, j - 1)
  {
    var m: int := Pow2(i - 1);
    assert Pow2(i) == 2 * m;
    AddEvenBit(v, m, j);
    AddEvenBit(v, -m, j);
    if j > 0 {
      BitStep(v, j - 1);
    }
  }

  /** Adding 2^i to a value whose bit i is clear sets bit i and no other. */
  lemma {:induction false} AddPow2Bit(v: int, i: nat, j: nat)
    requires Bit(v, i) == 0
    ensures Bit(v + Pow2(i), j) == if j == i then 1 else Bit(v, j)
    decreases i
  {
    if i == 0 {
      BitZero(v);
      AddOneBit(v, j);
    } else {
      ShiftPow2Step(v, i, j);
      ShiftPow2Step(v, i, i);
      if j > 0 {
        AddPow2Bit(v / 2, i - 1, j - 1);
      }
    }
  }

  /** Subtracting 2^i from a value whose bit i is set clears bit i and no other. */
  lemma {:induction false} SubPow2Bit(v: int, i: nat, j: nat)
    requires Bit(v, i) == 1
    ensures Bit(v - Pow2(i), j) == if j == i then 0 else Bit(v, j)
    decreases i
  {
    if i == 0 {
      BitZero(v);
      SubOneBit(v, j);
    } else {
      ShiftPow2Step(v, i, j);
      ShiftPow2Step(v, i, i);
      if j > 0 {
        SubPow2Bit(v / 2, i - 1, j - 1);
      }
    }
  }

  lemma AddPow2Bits(v: int, i: nat)
    requires Bit(v, i) == 0
    ensures forall j: nat :: Bit(v + Pow2(i), j) == if j == i then 1 else Bit(v, j)
  {
    forall j: nat ensures Bit(v + Pow2(i), j) == if j == i then 1 else Bit(v, j) {
      AddPow2Bit(v, i, j);
    }
  }

  lemma SubPow2Bits(v: int, i: nat)
    requires Bit(v, i) == 1
    ensures forall j: nat :: Bit(v - Pow2(i), j) == if j == i then 0 else Bit(v, j)
  {
    forall j: nat ensures Bit(v - Pow2(i), j) == if j == i then 0 else Bit(v, j) {
      SubPow2Bit(v, i, j);
    }
  }

  /** A non-negative value with bit i set is at least 2^i. */
  lemma {:induction false} SetBitLowerBound(v: int, i: nat)
    requires 0 <= v && Bit(v, i) == 1
    ensures Pow2(i) <= v
  {
    if i > 0 {
      BitStep(v, i - 1);
      SetBitLowerBound(v / 2, i - 1);
    }
  }

  /** Setting a clear bit below position n keeps a value below 2^n. */
  lemma {:induction false} ClearBitHeadroom(v: int, i: nat, n: nat)
    requires InRange(v, n) && i < n && Bit(v, i) == 0
    ensures v + Pow2(i) < Pow2(n)
  {
    if i > 0 {
      BitStep(v, i - 1);
      ClearBitHeadroom(v / 2, i - 1, n - 1);
    }
  }

  // ---------------------------------------------------------------------------
  // The four helpers of the driver.

  /** `get_bit`: `v & (1 << i)`. The result is the mask itself or zero, not 0/1. */
  function GetBit(v: int, i: nat): (r: int)
    ensures r == 0 || r == Pow2(i)
    ensures r != 0 <==> Bit(v, i) == 1
  {
    Bit(v, i) * Pow2(i)
  }

  /** `set_bit`: `v | (1 << i)`. */
  function SetBit(v: int, i: nat): (r: int)
    ensures forall j: nat :: Bit(r, j) == if j == i then 1 else Bit(v, j)
  {
    if Bit(v, i) == 1 then v
    else
      AddPow2Bits(v, i);
      v + Pow2(i)
  }

  /** `clear_bit`: `v & ~(1 << i)`. */
  function ClearBit(v: int, i: nat): (r: int)
    ensures forall j: nat :: Bit(r, j) == if j == i then 0 else Bit(v, j)
  {
    if Bit(v, i) == 0 then v
    else
      SubPow2Bits(v, i);
      v - Pow2(i)
  }

  /** `xor_bit`: `v ^ (1 << i)`. */
  function XorBit(v: int, i: nat): (r: int)
    ensures forall j: nat :: Bit(r, j) == if j == i then 1 - Bit(v, i) else Bit(v, j)
  {
    if Bit(v, i) == 1 then
      SubPow2Bits(v, i);
      v - Pow2(i)
    else
      AddPow2Bits(v, i);
      v + Pow2(i)
  }

  /** `acc | (bit << pos)` for a single bit. */
  function OrShifted(acc: int, bit: int, pos: nat): (r: int)
    requires bit == 0 || bit == 1
    ensures forall j: nat :: Bit(r, j) == if j == pos && bit == 1 then 1 else Bit(acc, j)
  {
    if bit == 0 then acc else SetBit(acc, pos)
  }

  /** Ors the bits into acc, most significant first: bits[0] lands at position
      |bits| - 1 and the last bit at position 0, in the order a loop counting the
      position down from |bits| - 1 to 0 would or them in. */
  function Accumulate(acc: int, bits: seq<int>): (r: int)
    requires IsBits(bits)
    ensures forall j: nat :: Bit(r, j) == if j < |bits| && bits[|bits| - 1 - j] == 1 then 1 else Bit(acc, j)
    decreases |bits|
  {
    if |bits| == 0 then acc
    else Accumulate(OrShifted(acc, bits[0], |bits| - 1), bits[1..])
  }

  // ---------------------------------------------------------------------------
  // Properties of the helpers.

  /** xor_bit is an involution. */
  lemma XorBitTwice(v: int, i: nat)
    ensures XorBit(XorBit(v, i), i) == v
  {
  }

  /** After set_bit, get_bit at the same position finds the bit; after clear_bit it
      finds nothing. */
  lemma GetAfterSetClear(v: int, i: nat)
    ensures GetBit(SetBit(v, i), i) == Pow2(i)
    ensures GetBit(ClearBit(v, i), i) == 0
  {
  }

  /** set_bit and clear_bit are idempotent, and each undoes the other's effect on bit i only. */
  lemma SetClearIdempotent(v: int, i: nat)
    ensures SetBit(SetBit(v, i), i) == SetBit(v, i)
    ensures ClearBit(ClearBit(v, i), i) == ClearBit(v, i)
    ensures SetBit(ClearBit(v, i), i) == SetBit(v, i)
    ensures ClearBit(SetBit(v, i), i) == ClearBit(v, i)
  {
  }

  /** Two values of n bits that agree on every bit below n are equal: the bits
      determine the value, so the bit-level contracts above are exact. */
  lemma {:induction false} BitsDetermine(x: int, y: int, n: nat)
    requires InRange(x, n) && InRange(y, n)
    requires forall j: nat :: j < n ==> Bit(x, j) == Bit(y, j)
    ensures x == y
  {
    if n > 0 {
      assert Bit(x, 0) == Bit(y, 0);
      forall j: nat | j < n - 1
        ensures Bit(x / 2, j) == Bit(y / 2, j)
      {
        assert Bit(x, j + 1) == Bit(y, j + 1);
        BitStep(x, j);
        BitStep(y, j);
      }
      BitsDetermine(x / 2, y / 2, n - 1);
    }
  }

  lemma SetBitInRange(v: int, i: nat, n: nat)
    requires i < n
    ensures InRange(v, n) ==> InRange(SetBit(v, i), n)
  {
    if InRange(v, n) && Bit(v, i) == 0 {
      ClearBitHeadroom(v, i, n);
    }
  }

  lemma ClearBitInRange(v: int, i: nat, n: nat)
    ensures InRange(v, n) ==> InRange(ClearBit(v, i), n)
  {
    if InRange(v, n) && Bit(v, i) == 1 {
      SetBitLowerBound(v, i);
    }
  }

  lemma XorBitInRange(v: int, i: nat, n: nat)
    requires i < n
    ensures InRange(v, n) ==> InRange(XorBit(v, i), n)
  {
    if InRange(v, n) {
      if Bit(v, i) == 1 {
        SetBitLowerBound(v, i);
      } else {
        ClearBitHeadroom(v, i, n);
      }
    }
  }

  /** q * 2^n is twice q * 2^(n-1). */
  lemma MulPow2Step(q: int, n: nat)
    requires n > 0
    ensures q * Pow2(n) == 2 * (q * Pow2(n - 1))
  {
    assert Pow2(n) == 2 * Pow2(n - 1);
  }

  /** Adding a multiple of 2^n leaves the bits below n alone. */
  lemma {:induction false} BitOfMultiplePlus(q: int, r: int, n: nat, i: nat)
    requires i < n
    ensures Bit(q * Pow2(n) + r, i) == Bit(r, i)
    decreases i
  {
    var m := q * Pow2(n - 1);
    MulPow2Step(q, n);
    assert q * Pow2(n) + r == r + 2 * m;
    AddEvenBit(r, m, i);
    if i > 0 {
      BitStep(r, i - 1);
      BitOfMultiplePlus(q, r / 2, n - 1, i - 1);
    }
  }

  /** Reducing modulo 2^n keeps bits 0 .. n-1: `x & (2^n - 1)` and `x % 2^n` agree. */
  lemma LowBitsOfMod(x: int, n: nat, i: nat)
    requires i < n
    ensures Bit(x % Pow2(n), i) == Bit(x, i)
  {
    var p := Pow2(n);
    assert x == (x / p) * p + x % p;
    BitOfMultiplePlus(x / p, x % p, n, i);
  }

  lemma {:induction false} AccumulateInRange(acc: int, bits: seq<int>, n: nat)
    requires IsBits(bits) && |bits| <= n
    ensures InRange(acc, n) ==> InRange(Accumulate(acc, bits), n)
    decreases |bits|
  {
    if |bits| > 0 {
      if bits[0] == 1 {
        SetBitInRange(acc, |bits| - 1, n);
      }
      AccumulateInRange(OrShifted(acc, bits[0], |bits| - 1), bits[1..], n);
    }
  }

  /** Ors a bit pattern into zero: the result is the number those bits spell,
      most significant first, and has no other bits. */
  lemma AccumulateFromZero(bits: seq<int>)
    requires IsBits(bits)
    ensures InRange(Accumulate(0, bits), |bits|)
    ensures forall j: nat :: j < |bits| ==> Bit(Accumulate(0, bits), j) == bits[|bits| - 1 - j]
  {
    var r := Accumulate(0, bits);
    AccumulateInRange(0, bits, |bits|);
    forall j: nat | j < |bits|
      ensures Bit(r, j) == bits[|bits| - 1 - j]
    {
      BitOfZero(j);
      AccumulateBit(0, bits, j);
    }
  }

  /** One instance of `Accumulate`'s contract. */
  lemma AccumulateBit(acc: int, bits: seq<int>, j: nat)
    requires IsBits(bits)
    ensures Bit(Accumulate(acc, bits), j) == if j < |bits| && bits[|bits| - 1 - j] == 1 then 1 else Bit(acc, j)
  {
  }

  lemma BitOfZero(j: nat)
    ensures Bit(0, j) == 0
  {
    DivUnique(0, Pow2(j), 0, 0);
  }

  /** Reassembling the low n bits of x, most significant first, gives x mod 2^n. */
  lemma AccumulateBitsMsbFirst(x: int, n: nat)
    ensures IsBits(BitsMsbFirst(x, n))
    ensures Accumulate(0, BitsMsbFirst(x, n)) == x % Pow2(n)
  {
    var bs := BitsMsbFirst(x, n);
    var r := Accumulate(0, bs);
    AccumulateInRange(0, bs, n);
    forall j: nat | j < n
      ensures Bit(r, j) == Bit(x % Pow2(n), j)
    {
      LowBitsOfMod(x, n, j);
      assert bs[n - 1 - j] == Bit(x, j);
    }
    BitsDetermine(r, x % Pow2(n), n);
  }
}
