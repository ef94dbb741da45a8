/** The pins of the bit-banged SPI interface and the named helpers that drive
    them. The driver owns an 8-bit input port of the design under test and reads
    an 8-bit output port:
      bit 4 of the input port  chip select (CS), idle high
      bit 5 of the input port  serial clock (SCLK)
      bit 6 of the input port  data from the driver (MOSI)
      bit 3 of the output port data to the driver (MISO)
    Each helper touches exactly one of these bits and keeps an 8-bit value 8-bit. */
module SpiPort {
  import opened BitOps

  const MISO: nat := 3
  const CS: nat := 4
  const SCLK: nat := 5
  const MOSI: nat := 6

  /** The value fits the 8-bit port. */
  predicate IsByte(v: int)
  {
    0 <= v < 256
  }

  /** The levels of CS, SCLK and MOSI in port value p: bits 4, 5 and 6 of p
      (`LineBits`), written out with the constant weights of those bits. */
  function Cs(p: int): int { (p / 16) % 2 }

  function Sclk(p: int): int { (p / 32) % 2 }

  function Mosi(p: int): int { (p / 64) % 2 }

  /** q agrees with p on every bit except possibly bit i. */
  ghost predicate OnlyBitChanged(p: int, q: int, i: nat)
  {
    forall j: nat :: j != i ==> Bit(q, j) == Bit(p, j)
  }

  lemma ByteIsEightBits(v: int)
    ensures IsByte(v) <==> InRange(v, 8)
  {
    assert Pow2(8) == 256;
  }

  lemma LineBits(p: int)
    ensures Cs(p) == Bit(p, CS) && Sclk(p) == Bit(p, SCLK) && Mosi(p) == Bit(p, MOSI)
  {
    assert Pow2(4) == 16 && Pow2(5) == 32 && Pow2(6) == 64;
  }

  /** The part of p that the SPI helpers never touch: p with bits 4, 5 and 6
      cleared. `OffBusBit` shows it is exactly that. */
  function OffBus(p: int): int
  {
    128 * (p / 128) + p % 16
  }

  /** The port value with off-bus part base and the given line levels. */
  function Compose(base: int, cs: int, sclk: int, mosi: int): int
  {
    base + 16 * cs + 32 * sclk + 64 * mosi
  }

  /** Splitting off the bit of weight d from p mod 2d. */
  lemma ModSplit(p: int, d: int)
    requires d > 0
    ensures p % (2 * d) == d * ((p / d) % 2) + p % d
  {
    var a := p / d;
    var r := p % d;
    var low := d * (a % 2) + r;
    assert p == (2 * d) * (a / 2) + low;
    DivUnique(p, 2 * d, a / 2, low);
  }

  /** A port value is its off-bus part plus the three line levels in their places. */
  lemma Decompose(p: int)
    ensures p == Compose(OffBus(p), Cs(p), Sclk(p), Mosi(p))
  {
    ModSplit(p, 64);
    ModSplit(p, 32);
    ModSplit(p, 16);
  }

  /** Two port values with the same off-bus part and the same three line levels
      are the same value. */
  lemma SameLines(p: int, q: int)
    requires OffBus(p) == OffBus(q) && Cs(p) == Cs(q) && Sclk(p) == Sclk(q) && Mosi(p) == Mosi(q)
    ensures p == q
  {
    Decompose(p);
    Decompose(q);
  }

  /** Setting the three lines of p to given levels: the lines read back as set,
      the off-bus part is p's, and an 8-bit port stays 8-bit. */
  lemma ComposeLines(p: int, cs: int, sclk: int, mosi: int)
    requires cs == 0 || cs == 1
    requires sclk == 0 || sclk == 1
    requires mosi == 0 || mosi == 1
    ensures var q := Compose(OffBus(p), cs, sclk, mosi);
            && Cs(q) == cs && Sclk(q) == sclk && Mosi(q) == mosi
            && OffBus(q) == OffBus(p)
            && (IsByte(p) ==> IsByte(q))
  {
    ComposeArith(Compose(OffBus(p), cs, sclk, mosi), p / 128, p % 16, cs, sclk, mosi);
    if IsByte(p) {
      OffBusOfByte(p);
    }
  }

  /** The arithmetic behind `ComposeLines`, with the off-bus part given as
      128a + r. */
  lemma ComposeArith(q: int, a: int, r: int, cs: int, sclk: int, mosi: int)
    requires 0 <= r < 16
    requires cs == 0 || cs == 1
    requires sclk == 0 || sclk == 1
    requires mosi == 0 || mosi == 1
    requires q == 128 * a + r + 16 * cs + 32 * sclk + 64 * mosi
    ensures Cs(q) == cs && Sclk(q) == sclk && Mosi(q) == mosi
    ensures q / 128 == a && q % 16 == r
    ensures OffBus(q) == 128 * a + r
  {
    DivMod(q, 16, 8 * a + cs + 2 * sclk + 4 * mosi, r);
    DivMod(q, 32, 4 * a + sclk + 2 * mosi, 16 * cs + r);
    DivMod(q, 64, 2 * a + mosi, 16 * cs + 32 * sclk + r);
    DivMod(q, 128, a, 16 * cs + 32 * sclk + 64 * mosi + r);
    HalfOfSum(cs, 4 * a + sclk + 2 * mosi);
    HalfOfSum(sclk, 2 * a + mosi);
    HalfOfSum(mosi, a);
  }

  /** The off-bus part of an 8-bit value leaves room for the three lines. */
  lemma OffBusOfByte(p: int)
    requires IsByte(p)
    ensures 0 <= OffBus(p) <= 143
  {
    if p < 128 {
      DivMod(p, 128, 0, p);
    } else {
      DivMod(p, 128, 1, p - 128);
    }
  }

  /** Bit j of the off-bus part: zero on the three lines, p's own bit elsewhere. */
  lemma OffBusBit(p: int, j: nat)
    ensures Bit(OffBus(p), j) == if j == CS || j == SCLK || j == MOSI then 0 else Bit(p, j)
  {
    LineBits(p);
    Decompose(p);
    var a := ClearBit(p, CS);
    var b := ClearBit(a, SCLK);
    var c := ClearBit(b, MOSI);
    assert Pow2(4) == 16 && Pow2(5) == 32 && Pow2(6) == 64;
    assert a == p - 16 * Cs(p);
    assert b == a - 32 * Bit(a, SCLK);
    assert c == b - 64 * Bit(b, MOSI);
    assert c == OffBus(p);
  }

  /** Two values with the same off-bus part agree on every bit but CS, SCLK and MOSI. */
  lemma SameOffBusBits(p: int, q: int)
    requires OffBus(p) == OffBus(q)
    ensures forall j: nat :: j != CS && j != SCLK && j != MOSI ==> Bit(q, j) == Bit(p, j)
  {
    forall j: nat | j != CS && j != SCLK && j != MOSI
      ensures Bit(q, j) == Bit(p, j)
    {
      OffBusBit(p, j);
      OffBusBit(q, j);
    }
  }

  /** set_bit on one of the three lines raises that line and keeps the rest. */
  lemma SetLine(v: int, i: nat)
    requires i == CS || i == SCLK || i == MOSI
    ensures SetBit(v, i) == Compose(OffBus(v), if i == CS then 1 else Cs(v),
                                    if i == SCLK then 1 else Sclk(v), if i == MOSI then 1 else Mosi(v))
  {
    LineBits(v);
    Decompose(v);
    assert Pow2(4) == 16 && Pow2(5) == 32 && Pow2(6) == 64;
  }

  /** clear_bit on one of the three lines lowers that line and keeps the rest. */
  lemma ClearLine(v: int, i: nat)
    requires i == CS || i == SCLK || i == MOSI
    ensures ClearBit(v, i) == Compose(OffBus(v), if i == CS then 0 else Cs(v),
                                      if i == SCLK then 0 else Sclk(v), if i == MOSI then 0 else Mosi(v))
  {
    LineBits(v);
    Decompose(v);
    assert Pow2(4) == 16 && Pow2(5) == 32 && Pow2(6) == 64;
  }

  /** xor_bit on one of the three lines inverts that line and keeps the rest. */
  lemma XorLine(v: int, i: nat)
    requires i == CS || i == SCLK || i == MOSI
    ensures XorBit(v, i) == Compose(OffBus(v), if i == CS then 1 - Cs(v) else Cs(v),
                                    if i == SCLK then 1 - Sclk(v) else Sclk(v),
                                    if i == MOSI then 1 - Mosi(v) else Mosi(v))
  {
    LineBits(v);
    Decompose(v);
    assert Pow2(4) == 16 && Pow2(5) == 32 && Pow2(6) == 64;
  }

  /** `pull_cs_high` */
  function PullCsHigh(v: int): (r: int)
    ensures IsByte(v) ==> IsByte(r)
    ensures Cs(r) == 1 && Sclk(r) == Sclk(v) && Mosi(r) == Mosi(v) && OffBus(r) == OffBus(v)
  {
    SetLine(v, CS);
    ComposeLines(v, 1, Sclk(v), Mosi(v));
    SetBit(v, CS)
  }

  /** `pull_cs_low` */
  function PullCsLow(v: int): (r: int)
    ensures IsByte(v) ==> IsByte(r)
    ensures Cs(r) == 0 && Sclk(r) == Sclk(v) && Mosi(r) == Mosi(v) && OffBus(r) == OffBus(v)
  {
    ClearLine(v, CS);
    ComposeLines(v, 0, Sclk(v), Mosi(v));
    ClearBit(v, CS)
  }

  /** `spi_clk_high` */
  function SpiClkHigh(v: int): (r: int)
    ensures IsByte(v) ==> IsByte(r)
    ensures Cs(r) == Cs(v) && Sclk(r) == 1 && Mosi(r) == Mosi(v) && OffBus(r) == OffBus(v)
  {
    SetLine(v, SCLK);
    ComposeLines(v, Cs(v), 1, Mosi(v));
    SetBit(v, SCLK)
  }

  /** `spi_clk_low` */
  function SpiClkLow(v: int): (r: int)
    ensures IsByte(v) ==> IsByte(r)
    ensures Cs(r) == Cs(v) && Sclk(r) == 0 && Mosi(r) == Mosi(v) && OffBus(r) == OffBus(v)
  {
    ClearLine(v, SCLK);
    ComposeLines(v, Cs(v), 0, Mosi(v));
    ClearBit(v, SCLK)
  }

  /** `spi_clk_invert` */
  function SpiClkInvert(v: int): (r: int)
    ensures IsByte(v) ==> IsByte(r)
    ensures Cs(r) == Cs(v) && Sclk(r) == 1 - Sclk(v) && Mosi(r) == Mosi(v) && OffBus(r) == OffBus(v)
  {
    XorLine(v, SCLK);
    ComposeLines(v, Cs(v), 1 - Sclk(v), Mosi(v));
    XorBit(v, SCLK)
  }

  /** `spi_mosi_high` */
  function SpiMosiHigh(v: int): (r: int)
    ensures IsByte(v) ==> IsByte(r)
    ensures Cs(r) == Cs(v) && Sclk(r) == Sclk(v) && Mosi(r) == 1 && OffBus(r) == OffBus(v)
  {
    SetLine(v, MOSI);
    ComposeLines(v, Cs(v), Sclk(v), 1);
    SetBit(v, MOSI)
  }

  /** `spi_mosi_low` */
  function SpiMosiLow(v: int): (r: int)
    ensures IsByte(v) ==> IsByte(r)
    ensures Cs(r) == Cs(v) && Sclk(r) == Sclk(v) && Mosi(r) == 0 && OffBus(r) == OffBus(v)
  {
    ClearLine(v, MOSI);
    ComposeLines(v, Cs(v), Sclk(v), 0);
    ClearBit(v, MOSI)
  }

  /** `spi_miso_read`: `get_bit(port, 3) >> 3`. get_bit leaves the bit in place
      (0 or 8); the shift brings it down to a plain 0 or 1. */
  function SpiMisoRead(port: int): (b: int)
    ensures b == Bit(port, MISO)
    ensures b == 0 || b == 1
  {
    ShiftRight(GetBit(port, MISO), MISO)
  }

  /** Each pin helper changes its own line's bit and no other bit of the port. */
  lemma HelpersTouchOneLine(v: int)
    ensures OnlyBitChanged(v, PullCsHigh(v), CS) && OnlyBitChanged(v, PullCsLow(v), CS)
    ensures OnlyBitChanged(v, SpiClkHigh(v), SCLK) && OnlyBitChanged(v, SpiClkLow(v), SCLK)
    ensures OnlyBitChanged(v, SpiClkInvert(v), SCLK)
    ensures OnlyBitChanged(v, SpiMosiHigh(v), MOSI) && OnlyBitChanged(v, SpiMosiLow(v), MOSI)
  {
  }

  /** Inverting the clock twice restores the port. */
  lemma ClkInvertTwice(v: int)
    ensures SpiClkInvert(SpiClkInvert(v)) == v
  {
    XorBitTwice(v, SCLK);
  }
}
