/** What the two register frames promise, stated over the frames themselves:
    which bits they touch, how CS frames them, how often SCLK turns over, which
    bit MOSI carries at each step, what a receiver decodes from them, and what the
    read frame returns. */
module FrameFacts {
  import opened BitOps
  import opened SpiPort
  import opened FrameReference
  import opened SpiFrame

  /** Number of port assignments in either frame. */
  const FRAME_STEPS: nat := FrameLength(15)

  /** A frame that starts from p0 and carries the command bit, the three
      don't-care zeros, the address and the data. */
  predicate IsRegisterFrame(p0: int, command: int, address: int, data: int, t: seq<int>)
  {
    Follows(p0, command, Payload(address, data), t)
  }

  lemma LevelOfMask(x: int, i: nat)
    ensures Level(GetBit(x, i)) == Bit(x, i)
  {
  }

  /** The payload as MOSI levels: three zeros, then the low four address bits and
      the low eight data bits, most significant first. */
  lemma PayloadLevels(address: int, data: int)
    ensures Levels(Payload(address, data)) == [0, 0, 0] + BitsMsbFirst(address, 4) + BitsMsbFirst(data, 8)
  {
    var l := Levels(Payload(address, data));
    var r := [0, 0, 0] + BitsMsbFirst(address, 4) + BitsMsbFirst(data, 8);
    forall k | 0 <= k < 15
      ensures l[k] == r[k]
    {
      if 3 <= k < 7 {
        LevelOfMask(address, 6 - k);
      } else if 7 <= k {
        LevelOfMask(data, 14 - k);
      }
    }
  }

  /** The stream bit q of the payload, as a MOSI level. */
  lemma PayloadLevel(address: int, data: int, q: nat)
    requires q < 15
    ensures Level(Payload(address, data)[q]) ==
              if q < 3 then 0 else if q < 7 then Bit(address, 6 - q) else Bit(data, 14 - q)
  {
    PayloadLevels(address, data);
    assert Levels(Payload(address, data))[q] == Level(Payload(address, data)[q]);
  }

  // ---------------------------------------------------------------------------
  // Properties of every register frame, write or read.

  /** A frame touches CS, SCLK and MOSI only: bits 0 to 3, 7 and above of every
      step are those of the port before the frame. */
  lemma FrameKeepsOtherBits(p0: int, command: int, address: int, data: int, t: seq<int>)
    requires IsRegisterFrame(p0, command, address, data, t)
    ensures |t| == FRAME_STEPS
    ensures forall k, j: nat :: 0 <= k < |t| && j != CS && j != SCLK && j != MOSI ==> Bit(t[k], j) == Bit(p0, j)
  {
    forall k, j: nat | 0 <= k < |t| && j != CS && j != SCLK && j != MOSI
      ensures Bit(t[k], j) == Bit(p0, j)
    {
      FollowsKeepsOtherBits(p0, command, Payload(address, data), t, k);
    }
  }

  /** CS is high at the first and the last step and low at every step between. */
  lemma FrameCsFraming(p0: int, command: int, address: int, data: int, t: seq<int>)
    requires IsRegisterFrame(p0, command, address, data, t)
    ensures |t| == FRAME_STEPS
    ensures Cs(t[0]) == 1 && Cs(t[FRAME_STEPS - 1]) == 1
    ensures forall k :: 1 <= k < FRAME_STEPS - 1 ==> Cs(t[k]) == 0
  {
    var stream := Payload(address, data);
    FollowsAt(p0, command, stream, t, 0);
    FollowsAt(p0, command, stream, t, FRAME_STEPS - 1);
    forall k | 1 <= k < FRAME_STEPS - 1
      ensures Cs(t[k]) == 0
    {
      FollowsAt(p0, command, stream, t, k);
    }
  }

  /** A frame inverts SCLK 1 + 3*2 + 4*2 + 8*2 + 1 = 32 times, so SCLK ends where it started. */
  lemma FrameClockParity(p0: int, command: int, address: int, data: int, t: seq<int>)
    requires IsRegisterFrame(p0, command, address, data, t)
    ensures |t| == FRAME_STEPS
    ensures Inversions(p0, t, FRAME_STEPS) == 32
    ensures Sclk(t[FRAME_STEPS - 1]) == Sclk(p0)
  {
    FollowsClockParity(p0, command, Payload(address, data), t);
  }

  /** The MOSI level the frame gives to stream bit q: zero for the three
      don't-care bits, then address bits 3..0, then data bits 7..0. */
  function PayloadBit(address: int, data: int, q: nat): int
    requires q < 15
  {
    if q < 3 then 0 else if q < 7 then Bit(address, 6 - q) else Bit(data, 14 - q)
  }

  /** Stream bit q sits on MOSI at its launch step 3 + 2q and its capture step 4 + 2q. */
  lemma FrameSlot(p0: int, command: int, address: int, data: int, t: seq<int>, q: nat)
    requires IsRegisterFrame(p0, command, address, data, t) && q < 15
    ensures |t| == FRAME_STEPS
    ensures Mosi(t[3 + 2 * q]) == PayloadBit(address, data, q)
    ensures Mosi(t[4 + 2 * q]) == PayloadBit(address, data, q)
  {
    var stream := Payload(address, data);
    assert Level(stream[q]) == PayloadBit(address, data, q) by {
      PayloadLevel(address, data, q);
    }
    assert MosiAt(Mosi(p0), command, stream, 3 + 2 * q) == Level(stream[q])
        && MosiAt(Mosi(p0), command, stream, 4 + 2 * q) == Level(stream[q]) by {
      LaunchLevels(Sclk(p0), Mosi(p0), command, stream, q, 3 + 2 * q);
      CaptureLevels(Sclk(p0), Mosi(p0), command, stream, q, 4 + 2 * q);
    }
    FollowsAt(p0, command, stream, t, 3 + 2 * q);
    FollowsAt(p0, command, stream, t, 4 + 2 * q);
  }

  /** Address bit i is on MOSI at steps 15 - 2i and 16 - 2i. */
  lemma FrameAddressBits(p0: int, command: int, address: int, data: int, t: seq<int>)
    requires IsRegisterFrame(p0, command, address, data, t)
    ensures |t| == FRAME_STEPS
    ensures forall i :: 0 <= i < 4 ==> Mosi(t[15 - 2 * i]) == Bit(address, i) && Mosi(t[16 - 2 * i]) == Bit(address, i)
  {
    forall i | 0 <= i < 4
      ensures Mosi(t[15 - 2 * i]) == Bit(address, i) && Mosi(t[16 - 2 * i]) == Bit(address, i)
    {
      AddressSlot(p0, command, address, data, t, i, 6 - i);
    }
  }

  /** Address bit i is stream bit q = 6 - i. */
  lemma AddressSlot(p0: int, command: int, address: int, data: int, t: seq<int>, i: nat, q: nat)
    requires IsRegisterFrame(p0, command, address, data, t) && i < 4 && q == 6 - i
    ensures |t| == FRAME_STEPS
    ensures Mosi(t[15 - 2 * i]) == Bit(address, i) && Mosi(t[16 - 2 * i]) == Bit(address, i)
  {
    FrameSlot(p0, command, address, data, t, q);
    assert 3 + 2 * q == 15 - 2 * i && 4 + 2 * q == 16 - 2 * i;
  }

  /** Data bit i is on MOSI at steps 31 - 2i and 32 - 2i. */
  lemma FrameDataBits(p0: int, command: int, address: int, data: int, t: seq<int>)
    requires IsRegisterFrame(p0, command, address, data, t)
    ensures |t| == FRAME_STEPS
    ensures forall i :: 0 <= i < 8 ==> Mosi(t[31 - 2 * i]) == Bit(data, i) && Mosi(t[32 - 2 * i]) == Bit(data, i)
  {
    forall i | 0 <= i < 8
      ensures Mosi(t[31 - 2 * i]) == Bit(data, i) && Mosi(t[32 - 2 * i]) == Bit(data, i)
    {
      DataSlot(p0, command, address, data, t, i, 14 - i);
    }
  }

  /** Data bit i is stream bit q = 14 - i. */
  lemma DataSlot(p0: int, command: int, address: int, data: int, t: seq<int>, i: nat, q: nat)
    requires IsRegisterFrame(p0, command, address, data, t) && i < 8 && q == 14 - i
    ensures |t| == FRAME_STEPS
    ensures Mosi(t[31 - 2 * i]) == Bit(data, i) && Mosi(t[32 - 2 * i]) == Bit(data, i)
  {
    FrameSlot(p0, command, address, data, t, q);
    assert 3 + 2 * q == 31 - 2 * i && 4 + 2 * q == 32 - 2 * i;
  }

  /** MOSI at every step of the frame: the command bit on the CS-low step and its
      capture; zero on the three don't-care bits; address bit i on steps 15 - 2i
      and 16 - 2i; data bit i on steps 31 - 2i and 32 - 2i; and it stays at data
      bit 0 through the closing steps. */
  lemma FrameSerialisation(p0: int, command: int, address: int, data: int, t: seq<int>)
    requires IsRegisterFrame(p0, command, address, data, t)
    ensures |t| == FRAME_STEPS
    ensures Mosi(t[1]) == command && Mosi(t[2]) == command
    ensures forall q :: 0 <= q < 3 ==> Mosi(t[3 + 2 * q]) == 0 && Mosi(t[4 + 2 * q]) == 0
    ensures forall i :: 0 <= i < 4 ==> Mosi(t[15 - 2 * i]) == Bit(address, i) && Mosi(t[16 - 2 * i]) == Bit(address, i)
    ensures forall i :: 0 <= i < 8 ==> Mosi(t[31 - 2 * i]) == Bit(data, i) && Mosi(t[32 - 2 * i]) == Bit(data, i)
    ensures Mosi(t[33]) == Bit(data, 0) && Mosi(t[34]) == Bit(data, 0)
  {
    var stream := Payload(address, data);
    FollowsAt(p0, command, stream, t, 1);
    FollowsAt(p0, command, stream, t, 2);
    forall q | 0 <= q < 3
      ensures Mosi(t[3 + 2 * q]) == 0 && Mosi(t[4 + 2 * q]) == 0
    {
      FrameSlot(p0, command, address, data, t, q);
    }
    FrameAddressBits(p0, command, address, data, t);
    FrameDataBits(p0, command, address, data, t);
    assert Mosi(t[33]) == Bit(data, 0) && Mosi(t[34]) == Bit(data, 0) by {
      PayloadLevel(address, data, 14);
      FollowsAt(p0, command, stream, t, 33);
      FollowsAt(p0, command, stream, t, 34);
    }
  }

  /** MOSI changes only on the CS-low step and on the first SCLK inversion of a
      bit; never on the second inversion, the trailing inversion or CS high. */
  lemma FrameMosiChangesOnLaunch(p0: int, command: int, address: int, data: int, t: seq<int>)
    requires IsRegisterFrame(p0, command, address, data, t)
    ensures |t| == FRAME_STEPS
    ensures forall k :: 0 <= k < FRAME_STEPS && Mosi(t[k]) != Mosi(Before(p0, t, k)) ==>
              k == 1 || (3 <= k < 33 && k % 2 == 1)
  {
    forall k | 0 <= k < FRAME_STEPS && Mosi(t[k]) != Mosi(Before(p0, t, k))
      ensures k == 1 || (3 <= k < 33 && k % 2 == 1)
    {
      MosiChangesOnlyAtLaunch(p0, command, Payload(address, data), t, k);
    }
  }

  // ---------------------------------------------------------------------------
  // The receiving end.

  /** What a register receiver makes of the 16 bits it captured in a frame: the
      command bit, then (after three don't-care bits) a 4-bit address and an
      8-bit data byte, each sent most significant bit first. */
  datatype Request = Request(command: int, address: int, data: int)

  function Receive(bits: seq<int>): (r: Request)
    requires |bits| == 16 && IsBits(bits)
    ensures r.command == bits[0]
    ensures InRange(r.address, 4) && InRange(r.data, 8)
    ensures forall j: nat :: j < 4 ==> Bit(r.address, j) == bits[7 - j]
    ensures forall j: nat :: j < 8 ==> Bit(r.data, j) == bits[15 - j]
  {
    var a := bits[4..8];
    var d := bits[8..16];
    AccumulateFromZero(a);
    AccumulateFromZero(d);
    Request(bits[0], Accumulate(0, a), Accumulate(0, d))
  }

  /** A clock-phase-0 receiver, sampling MOSI on each edge that takes SCLK away
      from its idle level, captures the command bit, three zeros, the address bits
      3..0 and the data bits 7..0, and nothing else, whatever that idle level. */
  lemma FrameCaptured(p0: int, command: int, address: int, data: int, t: seq<int>)
    requires IsRegisterFrame(p0, command, address, data, t)
    ensures |t| == FRAME_STEPS
    ensures Captured(p0, t, FRAME_STEPS) == [command, 0, 0, 0] + BitsMsbFirst(address, 4) + BitsMsbFirst(data, 8)
  {
    FollowsCaptured(p0, command, Payload(address, data), t);
    PayloadLevels(address, data);
  }

  /** The receiver recovers the command, the address modulo 16 and the data
      modulo 256 from every frame. */
  lemma FrameRoundTrip(p0: int, command: int, address: int, data: int, t: seq<int>)
    requires IsRegisterFrame(p0, command, address, data, t)
    ensures |t| == FRAME_STEPS
    ensures var bits := Captured(p0, t, FRAME_STEPS);
            |bits| == 16 && IsBits(bits) && Receive(bits) == Request(command, address % 16, data % 256)
  {
    FrameCaptured(p0, command, address, data, t);
    var bits := Captured(p0, t, FRAME_STEPS);
    var ab := BitsMsbFirst(address, 4);
    var db := BitsMsbFirst(data, 8);
    assert bits == [command, 0, 0, 0] + ab + db;
    assert bits[4..8] == ab && bits[8..16] == db;
    AccumulateBitsMsbFirst(address, 4);
    AccumulateBitsMsbFirst(data, 8);
    assert Pow2(4) == 16 && Pow2(8) == 256;
  }

  // ---------------------------------------------------------------------------
  // The write and the read frame.

  /** The write frame sends a one as command bit, the read frame a zero. */
  lemma CommandBits(p0: int, outs: seq<int>, address: int, data: int)
    requires |outs| == 8
    ensures Mosi(WriteFrame(p0, address, data)[1]) == 1
    ensures Mosi(ReadFrame(p0, outs, address, data).trace[1]) == 0
  {
    FrameSerialisation(p0, WRITE_COMMAND, address, data, WriteFrame(p0, address, data));
    FrameSerialisation(p0, READ_COMMAND, address, data, ReadFrame(p0, outs, address, data).trace);
  }

  /** The read frame is the write frame with MOSI low at the command bit's two
      steps; every other step is the same port value. */
  lemma ReadIsWriteButCommand(p0: int, outs: seq<int>, address: int, data: int)
    requires |outs| == 8
    ensures var w := WriteFrame(p0, address, data);
            var r := ReadFrame(p0, outs, address, data).trace;
            && |w| == |r| == FRAME_STEPS
            && (forall k :: 0 <= k < FRAME_STEPS && k != 1 && k != 2 ==> r[k] == w[k])
            && r[1] == SpiMosiLow(w[1]) && r[2] == SpiMosiLow(w[2])
  {
    var stream := Payload(address, data);
    var w := WriteFrame(p0, address, data);
    var r := ReadFrame(p0, outs, address, data).trace;
    forall k | 0 <= k < FRAME_STEPS && k != 1 && k != 2
      ensures r[k] == w[k]
    {
      assert MosiAt(Mosi(p0), READ_COMMAND, stream, k) == MosiAt(Mosi(p0), WRITE_COMMAND, stream, k);
      FollowsAt(p0, WRITE_COMMAND, stream, w, k);
      FollowsAt(p0, READ_COMMAND, stream, r, k);
      SameLines(r[k], w[k]);
    }
    FollowsAt(p0, WRITE_COMMAND, stream, w, 1);
    FollowsAt(p0, READ_COMMAND, stream, r, 1);
    FollowsAt(p0, WRITE_COMMAND, stream, w, 2);
    FollowsAt(p0, READ_COMMAND, stream, r, 2);
    SameLines(r[1], SpiMosiLow(w[1]));
    SameLines(r[2], SpiMosiLow(w[2]));
  }

  /** Only address bits 3..0 and data bits 7..0 reach the port: the payload is
      the same exactly when the address agrees modulo 16 and the data modulo 256. */
  lemma PayloadLowBits(a1: int, d1: int, a2: int, d2: int)
    ensures Payload(a1, d1) == Payload(a2, d2) <==> a1 % 16 == a2 % 16 && d1 % 256 == d2 % 256
  {
    assert Pow2(4) == 16 && Pow2(8) == 256;
    var same := a1 % 16 == a2 % 16 && d1 % 256 == d2 % 256;
    if same {
      forall i: nat | i < 4
        ensures GetBit(a1, i) == GetBit(a2, i)
      {
        LowBitsOfMod(a1, 4, i);
        LowBitsOfMod(a2, 4, i);
      }
      forall i: nat | i < 8
        ensures GetBit(d1, i) == GetBit(d2, i)
      {
        LowBitsOfMod(d1, 8, i);
        LowBitsOfMod(d2, 8, i);
      }
      assert Masks(a1, 4) == Masks(a2, 4);
      assert Masks(d1, 8) == Masks(d2, 8);
    }
    if Payload(a1, d1) == Payload(a2, d2) {
      PayloadLevels(a1, d1);
      PayloadLevels(a2, d2);
      var l1 := [0, 0, 0] + BitsMsbFirst(a1, 4) + BitsMsbFirst(d1, 8);
      var l2 := [0, 0, 0] + BitsMsbFirst(a2, 4) + BitsMsbFirst(d2, 8);
      assert l1 == l2;
      forall j: nat | j < 4
        ensures Bit(a1 % 16, j) == Bit(a2 % 16, j)
      {
        assert l1[6 - j] == l2[6 - j];
        LowBitsOfMod(a1, 4, j);
        LowBitsOfMod(a2, 4, j);
      }
      forall j: nat | j < 8
        ensures Bit(d1 % 256, j) == Bit(d2 % 256, j)
      {
        assert l1[14 - j] == l2[14 - j];
        LowBitsOfMod(d1, 8, j);
        LowBitsOfMod(d2, 8, j);
      }
      BitsDetermine(a1 % 16, a2 % 16, 4);
      BitsDetermine(d1 % 256, d2 % 256, 8);
    }
  }

  /** The write frame depends on the address only modulo 16 and on the data only
      modulo 256, and on nothing else of them. */
  lemma WriteFrameLowBits(p0: int, a1: int, d1: int, a2: int, d2: int)
    ensures WriteFrame(p0, a1, d1) == WriteFrame(p0, a2, d2) <==> a1 % 16 == a2 % 16 && d1 % 256 == d2 % 256
  {
    PayloadLowBits(a1, d1, a2, d2);
    if WriteFrame(p0, a1, d1) == WriteFrame(p0, a2, d2) {
      var t := WriteFrame(p0, a1, d1);
      FrameSerialisation(p0, WRITE_COMMAND, a1, d1, t);
      FrameSerialisation(p0, WRITE_COMMAND, a2, d2, t);
      SameLowBits(a1, d1, a2, d2, t);
    }
  }

  /** Likewise for the read frame's port trace and returned byte. */
  lemma ReadFrameLowBits(p0: int, outs: seq<int>, a1: int, d1: int, a2: int, d2: int)
    requires |outs| == 8
    ensures ReadFrame(p0, outs, a1, d1) == ReadFrame(p0, outs, a2, d2) <==> a1 % 16 == a2 % 16 && d1 % 256 == d2 % 256
  {
    PayloadLowBits(a1, d1, a2, d2);
    if ReadFrame(p0, outs, a1, d1) == ReadFrame(p0, outs, a2, d2) {
      var t := ReadFrame(p0, outs, a1, d1).trace;
      FrameSerialisation(p0, READ_COMMAND, a1, d1, t);
      FrameSerialisation(p0, READ_COMMAND, a2, d2, t);
      SameLowBits(a1, d1, a2, d2, t);
    }
  }

  /** Two frames whose MOSI agrees on the address and data launch steps carry the
      same address modulo 16 and data modulo 256. */
  lemma SameLowBits(a1: int, d1: int, a2: int, d2: int, t: seq<int>)
    requires |t| == FRAME_STEPS
    requires forall i :: 0 <= i < 4 ==> Mosi(t[15 - 2 * i]) == Bit(a1, i) && Mosi(t[15 - 2 * i]) == Bit(a2, i)
    requires forall i :: 0 <= i < 8 ==> Mosi(t[31 - 2 * i]) == Bit(d1, i) && Mosi(t[31 - 2 * i]) == Bit(d2, i)
    ensures a1 % 16 == a2 % 16 && d1 % 256 == d2 % 256
  {
    assert Pow2(4) == 16 && Pow2(8) == 256;
    forall j: nat | j < 4
      ensures Bit(a1 % 16, j) == Bit(a2 % 16, j)
    {
      assert Mosi(t[15 - 2 * j]) == Bit(a1, j);
      LowBitsOfMod(a1, 4, j);
      LowBitsOfMod(a2, 4, j);
    }
    forall j: nat | j < 8
      ensures Bit(d1 % 256, j) == Bit(d2 % 256, j)
    {
      assert Mosi(t[31 - 2 * j]) == Bit(d1, j);
      LowBitsOfMod(d1, 8, j);
      LowBitsOfMod(d2, 8, j);
    }
    BitsDetermine(a1 % 16, a2 % 16, 4);
    BitsDetermine(d1 % 256, d2 % 256, 8);
  }

  /** The read frame takes MISO sample k right after launching data bit 7 - k
      (step 31 - 2(7 - k) = 17 + 2k, a first inversion), and files it as bit
      7 - k of the returned byte. */
  lemma ReadSampleTiming(p0: int, outs: seq<int>, address: int, data: int, i: nat)
    requires |outs| == 8 && i < 8
    ensures var r := ReadFrame(p0, outs, address, data);
            && IsLaunchStep(31 - 2 * i, 15)
            && |r.trace| == FRAME_STEPS
            && Mosi(r.trace[31 - 2 * i]) == Bit(data, i)
            && Bit(r.misoByte, i) == SpiMisoRead(outs[7 - i])
  {
    var r := ReadFrame(p0, outs, address, data);
    DataLaunchStep(i);
    assert Mosi(r.trace[31 - 2 * i]) == Bit(data, i) by {
      FrameDataBits(p0, READ_COMMAND, address, data, r.trace);
    }
    assert Bit(r.misoByte, i) == SpiMisoRead(outs[7 - i]);
  }

  /** Step 31 - 2i, where data bit i is launched, is a first SCLK inversion. */
  lemma DataLaunchStep(i: nat)
    requires i < 8
    ensures IsLaunchStep(31 - 2 * i, 15)
  {
  }

  /** When the eight samples carry the bits of byte b, most significant first, the
      read frame returns b. */
  lemma MisoByteRoundTrip(outs: seq<int>, b: int)
    requires |outs| == 8 && IsByte(b)
    requires forall k :: 0 <= k < 8 ==> SpiMisoRead(outs[k]) == Bit(b, 7 - k)
    ensures MisoByte(outs) == b
  {
    var m := MisoByte(outs);
    forall j: nat | j < 8
      ensures Bit(m, j) == Bit(b, j)
    {
      assert SpiMisoRead(outs[7 - j]) == Bit(b, 7 - (7 - j));
    }
    ByteIsEightBits(m);
    ByteIsEightBits(b);
    BitsDetermine(m, b, 8);
  }
}
