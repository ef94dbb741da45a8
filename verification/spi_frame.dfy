/** The two frame generators of the register driver, `spi_write_cpha0` and
    `spi_read_cpha0`, as pure functions. Every `port.value = ...` assignment of
    the driver is one element of the returned trace; the settling waits between
    assignments are not modelled.

    Both frames send the same 15 bits after the command bit: three don't-care
    zeros, address bits 3..0 and data bits 7..0, each bit as two SCLK inversions
    with MOSI driven on the first. They differ only in the command bit (MOSI high
    for a write, low for a read) and in the read frame's collection of one MISO
    sample per data bit. */
module SpiFrame {
  import opened BitOps
  import opened SpiPort
  import opened FrameReference

  /** MOSI level of the command bit of a write frame. */
  const WRITE_COMMAND: int := 1
  /** MOSI level of the command bit of a read frame. */
  const READ_COMMAND: int := 0

  /** The command bit of a write frame (isWrite) or a read frame. */
  function Command(isWrite: bool): int
  {
    if isWrite then WRITE_COMMAND else READ_COMMAND
  }

  /** The don't-care bits that follow the command bit. */
  const DONT_CARE: seq<int> := [0, 0, 0]

  /** The driver's `if (bit == 0): spi_mosi_low else: spi_mosi_high` on a get_bit result. */
  function DriveMosi(p: int, b: int): (r: int)
    ensures Cs(r) == Cs(p) && Sclk(r) == Sclk(p) && Mosi(r) == Level(b) && OffBus(r) == OffBus(p)
  {
    if b == 0 then SpiMosiLow(p) else SpiMosiHigh(p)
  }

  /** The launch half of one bit: SCLK inverted, then MOSI driven to the bit. */
  function Launch(p: int, b: int): int
  {
    DriveMosi(SpiClkInvert(p), b)
  }

  /** The assignments that send stream, starting from p: for each bit, the launch
      half, then SCLK inverted again. */
  function Slots(p: int, stream: seq<int>): (t: seq<int>)
    ensures |t| == 2 * |stream|
    decreases |stream|
  {
    if |stream| == 0 then []
    else
      var launch := Launch(p, stream[0]);
      var capture := SpiClkInvert(launch);
      [launch, capture] + Slots(capture, stream[1..])
  }

  /** The port value once the assignments of `Slots(p, stream)` have been made. */
  function SlotsEnd(p: int, stream: seq<int>): int
    decreases |stream|
  {
    if |stream| == 0 then p
    else SlotsEnd(SpiClkInvert(Launch(p, stream[0])), stream[1..])
  }

  /** `get_bit(x, n-1), ..., get_bit(x, 0)`: what the driver's count-down loops test. */
  function Masks(x: int, n: nat): (ms: seq<int>)
    ensures |ms| == n
    ensures forall k :: 0 <= k < n ==> ms[k] == GetBit(x, n - 1 - k)
  {
    if n == 0 then [] else [GetBit(x, n - 1)] + Masks(x, n - 1)
  }

  /** The 15 bits both frames send after the command bit. */
  function Payload(address: int, data: int): (s: seq<int>)
    ensures |s| == 15
  {
    DONT_CARE + Masks(address, 4) + Masks(data, 8)
  }

  /** CS high; CS low with the command bit on MOSI; SCLK inverted. */
  function Opening(p0: int, isWrite: bool): (o: seq<int>)
    ensures |o| == 3
  {
    var idle := PullCsHigh(p0);
    var selected := PullCsLow(idle);
    var command := if isWrite then SpiMosiHigh(selected) else SpiMosiLow(selected);
    [idle, command, SpiClkInvert(command)]
  }

  /** The trailing SCLK inversion, then CS high. */
  function Closing(p: int): seq<int>
  {
    var trailing := SpiClkInvert(p);
    [trailing, PullCsHigh(trailing)]
  }

  function Frame(p0: int, isWrite: bool, stream: seq<int>): seq<int>
  {
    var opening := Opening(p0, isWrite);
    var body := Slots(opening[2], stream);
    opening + body + Closing(SlotsEnd(opening[2], stream))
  }

  /** Each of the 8 snapshots of the output port reduced to its MISO bit. */
  function MisoSamples(outs: seq<int>): (bits: seq<int>)
    ensures |bits| == |outs| && IsBits(bits)
    ensures forall k :: 0 <= k < |outs| ==> bits[k] == SpiMisoRead(outs[k])
  {
    if |outs| == 0 then [] else [SpiMisoRead(outs[0])] + MisoSamples(outs[1..])
  }

  // ---------------------------------------------------------------------------
  // Agreement with the step-by-step description.

  /** The two halves of one bit: the launch inverts SCLK and drives MOSI, the
      capture restores SCLK; CS and the off-bus part stay. */
  lemma SlotHalves(p: int, b: int)
    ensures Drives(p, Launch(p, b), Cs(p), 1 - Sclk(p), Level(b))
    ensures Drives(p, SpiClkInvert(Launch(p, b)), Cs(p), Sclk(p), Level(b))
  {
  }

  /** Bit q of the stream occupies steps 2q and 2q + 1 of the slots: the launch
      half with SCLK inverted, the capture half with SCLK back, MOSI at the bit on
      both. */
  lemma {:induction false} SlotPair(p: int, stream: seq<int>, q: nat)
    requires q < |stream|
    ensures Drives(p, Slots(p, stream)[2 * q], Cs(p), 1 - Sclk(p), Level(stream[q]))
    ensures Drives(p, Slots(p, stream)[2 * q + 1], Cs(p), Sclk(p), Level(stream[q]))
    decreases q
  {
    var capture := SpiClkInvert(Launch(p, stream[0]));
    var rest := stream[1..];
    SlotHalves(p, stream[0]);
    if q > 0 {
      SlotPair(capture, rest, q - 1);
      SlotsTail(p, stream, q);
    }
  }

  lemma SlotsTail(p: int, stream: seq<int>, q: nat)
    requires 0 < q < |stream|
    ensures var capture := SpiClkInvert(Launch(p, stream[0]));
            && Slots(p, stream)[2 * q] == Slots(capture, stream[1..])[2 * (q - 1)]
            && Slots(p, stream)[2 * q + 1] == Slots(capture, stream[1..])[2 * (q - 1) + 1]
            && stream[q] == stream[1..][q - 1]
  {
    var launch := Launch(p, stream[0]);
    var capture := SpiClkInvert(launch);
    PairIndex(launch, capture, Slots(capture, stream[1..]), q);
  }

  /** Indexing past a leading pair. */
  lemma PairIndex(x: int, y: int, s: seq<int>, q: nat)
    requires 0 < q && 2 * q + 1 < 2 + |s|
    ensures ([x, y] + s)[2 * q] == s[2 * (q - 1)] && ([x, y] + s)[2 * q + 1] == s[2 * (q - 1) + 1]
  {
  }

  /** The port value after the opening: CS low, SCLK inverted, MOSI at the command bit. */
  lemma OpeningShape(p0: int, isWrite: bool)
    ensures var o := Opening(p0, isWrite);
            var command := Command(isWrite);
            && Drives(p0, o[0], 1, Sclk(p0), Mosi(p0))
            && Drives(p0, o[1], 0, Sclk(p0), command)
            && Drives(p0, o[2], 0, 1 - Sclk(p0), command)
            && Cs(o[2]) == 0 && Sclk(o[2]) == 1 - Sclk(p0) && Mosi(o[2]) == command
            && OffBus(o[2]) == OffBus(p0)
  {
  }

  lemma FrameSplit(p0: int, isWrite: bool, stream: seq<int>)
    ensures var opening := Opening(p0, isWrite);
            var body := Slots(opening[2], stream);
            && Frame(p0, isWrite, stream) == opening + body + Closing(SlotsEnd(opening[2], stream))
            && |Frame(p0, isWrite, stream)| == FrameLength(|stream|)
  {
  }

  /** Step k of the frame drives the levels the description gives it. */
  predicate StepAgrees(p0: int, command: int, stream: seq<int>, t: seq<int>, k: nat)
  {
    && |t| == FrameLength(|stream|)
    && k < |t|
    && Drives(p0, t[k], CsAt(k, |t|), SclkAt(Sclk(p0), k, |t|), MosiAt(Mosi(p0), command, stream, k))
  }

  /** Step k agrees when the value there drives the levels the description gives. */
  lemma AgreesVia(p0: int, command: int, stream: seq<int>, t: seq<int>, k: nat,
                  v: int, cs: int, sclk: int, mosi: int)
    requires |t| == FrameLength(|stream|) && k < |t| && t[k] == v
    requires Drives(p0, v, cs, sclk, mosi)
    requires CsAt(k, |t|) == cs && SclkAt(Sclk(p0), k, |t|) == sclk && MosiAt(Mosi(p0), command, stream, k) == mosi
    ensures StepAgrees(p0, command, stream, t, k)
  {
  }

  lemma OpeningStep(p0: int, isWrite: bool, stream: seq<int>, k: nat)
    requires k < 3
    ensures StepAgrees(p0, Command(isWrite), stream, Frame(p0, isWrite, stream), k)
  {
    OpeningIndex(p0, isWrite, stream, k);
    OpeningLevels(Sclk(p0), Mosi(p0), Command(isWrite), stream, k);
    OpeningDrives(p0, isWrite, k);
    AgreesVia(p0, Command(isWrite), stream, Frame(p0, isWrite, stream), k, Opening(p0, isWrite)[k],
              if k == 0 then 1 else 0,
              if k == 2 then 1 - Sclk(p0) else Sclk(p0),
              if k == 0 then Mosi(p0) else Command(isWrite));
  }

  /** Step k < 3 of the frame is step k of the opening. */
  lemma OpeningIndex(p0: int, isWrite: bool, stream: seq<int>, k: nat)
    requires k < 3
    ensures var t := Frame(p0, isWrite, stream);
            && |t| == FrameLength(|stream|)
            && t[k] == Opening(p0, isWrite)[k]
  {
    var opening := Opening(p0, isWrite);
    var clocked := opening[2];
    FrameSplit(p0, isWrite, stream);
    IndexFirst(opening, Slots(clocked, stream), Closing(SlotsEnd(clocked, stream)), k);
  }

  /** The opening's three values against p0, indexed by k. */
  lemma OpeningDrives(p0: int, isWrite: bool, k: nat)
    requires k < 3
    ensures Drives(p0, Opening(p0, isWrite)[k],
                   if k == 0 then 1 else 0,
                   if k == 2 then 1 - Sclk(p0) else Sclk(p0),
                   if k == 0 then Mosi(p0) else Command(isWrite))
  {
    OpeningShape(p0, isWrite);
  }

  /** The description's levels at the three opening steps: CS high and then low,
      SCLK inverted at step 2, MOSI at the command bit from step 1. */
  lemma OpeningLevels(s0: int, m0: int, command: int, stream: seq<int>, k: nat)
    requires k < 3
    ensures var len := FrameLength(|stream|);
            && CsAt(k, len) == (if k == 0 then 1 else 0)
            && SclkAt(s0, k, len) == (if k == 2 then 1 - s0 else s0)
            && MosiAt(m0, command, stream, k) == if k == 0 then m0 else command
  {
  }

  /** Step k = 3 + j of the frame is step j of the slots. */
  lemma BodyHalf(p0: int, isWrite: bool, stream: seq<int>, k: nat, j: nat)
    requires j < 2 * |stream| && k == 3 + j
    ensures var t := Frame(p0, isWrite, stream);
            && |t| == FrameLength(|stream|)
            && t[k] == Slots(Opening(p0, isWrite)[2], stream)[j]
  {
    var opening := Opening(p0, isWrite);
    var clocked := opening[2];
    FrameSplit(p0, isWrite, stream);
    IndexAfter(Frame(p0, isWrite, stream), opening, Slots(clocked, stream), Closing(SlotsEnd(clocked, stream)), k, j);
  }

  /** Index k = 3 + j of t = a + b + c, with a three long, is index j of b. */
  lemma IndexAfter(t: seq<int>, a: seq<int>, b: seq<int>, c: seq<int>, k: nat, j: nat)
    requires t == a + b + c && |a| == 3 && k == 3 + j && j < |b|
    ensures t[k] == b[j]
  {
  }

  /** The two slot values of stream bit q in the frame's body, against p0: CS
      low, SCLK at its idle level after the launch half and away from it after the
      capture half, MOSI at the bit. */
  lemma BodySlot(p0: int, isWrite: bool, stream: seq<int>, q: nat)
    requires q < |stream|
    ensures var slots := Slots(Opening(p0, isWrite)[2], stream);
            && Drives(p0, slots[2 * q], 0, Sclk(p0), Level(stream[q]))
            && Drives(p0, slots[2 * q + 1], 0, 1 - Sclk(p0), Level(stream[q]))
  {
    OpeningShape(p0, isWrite);
    SlotPair(Opening(p0, isWrite)[2], stream, q);
  }

  /** The launch step 3 + 2q of stream bit q. */
  lemma BodyLaunch(p0: int, isWrite: bool, stream: seq<int>, q: nat, k: nat)
    requires q < |stream| && k == 3 + 2 * q
    ensures StepAgrees(p0, Command(isWrite), stream, Frame(p0, isWrite, stream), k)
  {
    var slots := Slots(Opening(p0, isWrite)[2], stream);
    BodySlot(p0, isWrite, stream, q);
    BodyHalf(p0, isWrite, stream, k, 2 * q);
    LaunchAgrees(p0, Command(isWrite), stream, Frame(p0, isWrite, stream), slots[2 * q], q, k);
  }

  /** A launch step agrees when its value drives CS low, SCLK at p0's level and
      MOSI at the bit. */
  lemma LaunchAgrees(p0: int, command: int, stream: seq<int>, t: seq<int>, v: int, q: nat, k: nat)
    requires q < |stream| && k == 3 + 2 * q && |t| == FrameLength(|stream|) && t[k] == v
    requires Drives(p0, v, 0, Sclk(p0), Level(stream[q]))
    ensures StepAgrees(p0, command, stream, t, k)
  {
    LaunchLevels(Sclk(p0), Mosi(p0), command, stream, q, k);
    AgreesVia(p0, command, stream, t, k, v, 0, Sclk(p0), Level(stream[q]));
  }

  /** The capture step 4 + 2q of stream bit q. */
  lemma BodyCapture(p0: int, isWrite: bool, stream: seq<int>, q: nat, k: nat)
    requires q < |stream| && k == 4 + 2 * q
    ensures StepAgrees(p0, Command(isWrite), stream, Frame(p0, isWrite, stream), k)
  {
    var slots := Slots(Opening(p0, isWrite)[2], stream);
    BodySlot(p0, isWrite, stream, q);
    BodyHalf(p0, isWrite, stream, k, 2 * q + 1);
    CaptureAgrees(p0, Command(isWrite), stream, Frame(p0, isWrite, stream), slots[2 * q + 1], q, k);
  }

  /** A capture step agrees when its value drives CS low, SCLK away from p0's
      level and MOSI at the bit. */
  lemma CaptureAgrees(p0: int, command: int, stream: seq<int>, t: seq<int>, v: int, q: nat, k: nat)
    requires q < |stream| && k == 4 + 2 * q && |t| == FrameLength(|stream|) && t[k] == v
    requires Drives(p0, v, 0, 1 - Sclk(p0), Level(stream[q]))
    ensures StepAgrees(p0, command, stream, t, k)
  {
    CaptureLevels(Sclk(p0), Mosi(p0), command, stream, q, k);
    AgreesVia(p0, command, stream, t, k, v, 0, 1 - Sclk(p0), Level(stream[q]));
  }

  /** A body step is the launch or the capture step of bit (k - 3) / 2. */
  lemma BodyIndex(k: nat, n: nat) returns (q: nat)
    requires 3 <= k < 3 + 2 * n
    ensures q < n && (k == 3 + 2 * q || k == 4 + 2 * q)
  {
    q := (k - 3) / 2;
  }

  /** Step k of the frame, inside the slots. */
  lemma BodyStep(p0: int, isWrite: bool, stream: seq<int>, k: nat)
    requires 3 <= k < 3 + 2 * |stream|
    ensures StepAgrees(p0, Command(isWrite), stream, Frame(p0, isWrite, stream), k)
  {
    var q := BodyIndex(k, |stream|);
    if k == 3 + 2 * q {
      BodyLaunch(p0, isWrite, stream, q, k);
    } else {
      BodyCapture(p0, isWrite, stream, q, k);
    }
  }

  /** Sending a stream leaves CS, SCLK and the off-bus part as they were and MOSI
      at the last bit sent. */
  lemma {:induction false} SlotsEndShape(p: int, stream: seq<int>)
    ensures var q := SlotsEnd(p, stream);
            && Cs(q) == Cs(p) && Sclk(q) == Sclk(p) && OffBus(q) == OffBus(p)
            && Mosi(q) == if |stream| == 0 then Mosi(p) else Level(stream[|stream| - 1])
    decreases |stream|
  {
    if |stream| > 0 {
      var capture := SpiClkInvert(Launch(p, stream[0]));
      SlotHalves(p, stream[0]);
      SlotsEndShape(capture, stream[1..]);
      if |stream| > 1 {
        assert stream[1..][|stream| - 2] == stream[|stream| - 1];
      }
    }
  }

  /** The port value just before the trailing inversion: p0 with CS low, SCLK
      inverted and MOSI at the last bit sent. */
  lemma LastSlot(p0: int, isWrite: bool, stream: seq<int>)
    ensures var last := SlotsEnd(Opening(p0, isWrite)[2], stream);
            && Cs(last) == 0 && Sclk(last) == 1 - Sclk(p0) && OffBus(last) == OffBus(p0)
            && Mosi(last) == if |stream| == 0 then Command(isWrite)
                             else Level(stream[|stream| - 1])
  {
    OpeningShape(p0, isWrite);
    SlotsEndShape(Opening(p0, isWrite)[2], stream);
  }

  lemma ClosingStep(p0: int, isWrite: bool, stream: seq<int>, k: nat)
    requires 3 + 2 * |stream| <= k < FrameLength(|stream|)
    ensures StepAgrees(p0, Command(isWrite), stream, Frame(p0, isWrite, stream), k)
  {
    var opening := Opening(p0, isWrite);
    var last := SlotsEnd(opening[2], stream);
    FrameSplit(p0, isWrite, stream);
    LastSlot(p0, isWrite, stream);
    IndexLast(opening, Slots(opening[2], stream), Closing(last), k);
    ClosingLevels(Sclk(p0), Mosi(p0), Command(isWrite), stream, k);
  }

  /** Index k of a + b + c when it falls inside a. */
  lemma IndexFirst(a: seq<int>, b: seq<int>, c: seq<int>, k: nat)
    requires k < |a|
    ensures (a + b + c)[k] == a[k]
  {
  }

  /** Index k of a + b + c when it falls inside c. */
  lemma IndexLast(a: seq<int>, b: seq<int>, c: seq<int>, k: nat)
    requires |a| + |b| <= k < |a| + |b| + |c|
    ensures (a + b + c)[k] == c[k - |a| - |b|]
  {
  }

  /** The levels the description gives to the two closing steps: SCLK back at its
      idle level, MOSI left at the last bit sent, CS low and then high. */
  lemma ClosingLevels(s0: int, m0: int, command: int, stream: seq<int>, k: nat)
    requires 3 + 2 * |stream| <= k < FrameLength(|stream|)
    ensures var len := FrameLength(|stream|);
            && CsAt(k, len) == (if k == 3 + 2 * |stream| then 0 else 1)
            && SclkAt(s0, k, len) == s0
            && MosiAt(m0, command, stream, k) == if |stream| == 0 then command else Level(stream[|stream| - 1])
  {
  }

  /** The description's levels at the launch step k = 3 + 2q of stream bit q. */
  lemma LaunchLevels(s0: int, m0: int, command: int, stream: seq<int>, q: nat, k: nat)
    requires q < |stream| && k == 3 + 2 * q
    ensures var len := FrameLength(|stream|);
            && CsAt(k, len) == 0 && SclkAt(s0, k, len) == s0
            && MosiAt(m0, command, stream, k) == Level(stream[q])
  {
    assert (k - 3) / 2 == q;
  }

  /** The description's levels at the capture step k = 4 + 2q of stream bit q. */
  lemma CaptureLevels(s0: int, m0: int, command: int, stream: seq<int>, q: nat, k: nat)
    requires q < |stream| && k == 4 + 2 * q
    ensures var len := FrameLength(|stream|);
            && CsAt(k, len) == 0 && SclkAt(s0, k, len) == 1 - s0
            && MosiAt(m0, command, stream, k) == Level(stream[q])
  {
    assert (k - 3) / 2 == q;
  }

  /** Step k of the driver's frame agrees with the description. */
  lemma FrameStep(p0: int, isWrite: bool, stream: seq<int>, k: nat)
    requires k < FrameLength(|stream|)
    ensures StepAgrees(p0, Command(isWrite), stream, Frame(p0, isWrite, stream), k)
  {
    if k < 3 {
      OpeningStep(p0, isWrite, stream, k);
    } else if k < 3 + 2 * |stream| {
      BodyStep(p0, isWrite, stream, k);
    } else {
      ClosingStep(p0, isWrite, stream, k);
    }
  }

  /** The driver's frame follows the step-by-step description. */
  lemma FrameFollowsReference(p0: int, isWrite: bool, stream: seq<int>)
    ensures Follows(p0, Command(isWrite), stream, Frame(p0, isWrite, stream))
  {
    var t := Frame(p0, isWrite, stream);
    FrameSplit(p0, isWrite, stream);
    forall k | 0 <= k < |t|
      ensures Drives(p0, t[k], CsAt(k, |t|), SclkAt(Sclk(p0), k, |t|),
                     MosiAt(Mosi(p0), Command(isWrite), stream, k))
    {
      FrameStep(p0, isWrite, stream, k);
    }
  }

  /** The frame follows the description and keeps an 8-bit port 8-bit. */
  lemma FrameSound(p0: int, isWrite: bool, stream: seq<int>)
    ensures Follows(p0, Command(isWrite), stream, Frame(p0, isWrite, stream))
    ensures IsByte(p0) ==> forall k :: 0 <= k < |Frame(p0, isWrite, stream)| ==> IsByte(Frame(p0, isWrite, stream)[k])
  {
    FrameFollowsReference(p0, isWrite, stream);
    FollowsKeepsByte(p0, Command(isWrite), stream, Frame(p0, isWrite, stream));
  }

  // ---------------------------------------------------------------------------
  // The two frames.

  /** `spi_write_cpha0(port, address, data)`: the 35 values assigned to the port. */
  function WriteFrame(p0: int, address: int, data: int): (t: seq<int>)
    ensures Follows(p0, WRITE_COMMAND, Payload(address, data), t)
    ensures IsByte(p0) ==> forall k :: 0 <= k < |t| ==> IsByte(t[k])
  {
    FrameSound(p0, true, Payload(address, data));
    Frame(p0, true, Payload(address, data))
  }

  /** The outcome of `spi_read_cpha0`: the values assigned to the input port and the returned `miso_byte`. */
  datatype ReadResult = ReadResult(trace: seq<int>, misoByte: int)

  /** `spi_read_cpha0(port_in, port_out, address, data)`, where outs[k] is the value
      of port_out the driver sees after driving data bit 7 - k. */
  function ReadFrame(p0: int, outs: seq<int>, address: int, data: int): (r: ReadResult)
    requires |outs| == 8
    ensures Follows(p0, READ_COMMAND, Payload(address, data), r.trace)
    ensures IsByte(p0) ==> forall k :: 0 <= k < |r.trace| ==> IsByte(r.trace[k])
    ensures r.misoByte == MisoByte(outs)
  {
    FrameSound(p0, false, Payload(address, data));
    ReadResult(Frame(p0, false, Payload(address, data)), MisoByte(outs))
  }

  /** The values of port_out a data loop samples, where portOut[m] is port_out as
      seen once m values have been assigned to the input port and the loop starts
      after base assignments: sample j is taken between the launch assignment of
      its bit, number base + 2j + 1, and the capture assignment. */
  function Snapshots(portOut: seq<int>, base: nat, n: nat): (outs: seq<int>)
    requires base + 2 * n <= |portOut|
    ensures |outs| == n
    ensures forall j :: 0 <= j < n ==> outs[j] == portOut[base + 2 * j + 1]
  {
    seq(n, j requires 0 <= j < n => portOut[base + 2 * j + 1])
  }

  /** The eight values of port_out the read frame samples: sample k is port_out
      once 18 + 2k values have been assigned, that is after step 17 + 2k, which
      launches data bit 7 - k, and before step 18 + 2k, which captures it. */
  function ReadSnapshots(portOut: seq<int>): (outs: seq<int>)
    requires |portOut| == FrameLength(15)
    ensures |outs| == 8
    ensures forall k :: 0 <= k < 8 ==> outs[k] == portOut[18 + 2 * k]
  {
    Snapshots(portOut, 17, 8)
  }

  /** The byte spelled by the read frame's samples, bit by bit: bit i is MISO of
      port_out as seen after step 31 - 2i, the launch of data bit i. */
  lemma SampledByte(portOut: seq<int>, b: int)
    requires |portOut| == FrameLength(15) && b == Accumulate(0, MisoSamples(Snapshots(portOut, 17, 8)))
    ensures b == MisoByte(ReadSnapshots(portOut))
    ensures forall i: nat :: i < 8 ==> Bit(b, i) == Bit(portOut[32 - 2 * i], MISO)
  {
    var outs := ReadSnapshots(portOut);
    assert b == MisoByte(outs);
    forall i: nat | i < 8
      ensures Bit(b, i) == Bit(portOut[32 - 2 * i], MISO)
    {
      assert outs[7 - i] == portOut[32 - 2 * i];
    }
  }

  /** The `miso_byte` the read loop builds: `miso_byte | (spi_miso_read(port_out) << i)`
      for i from 7 down to 0, starting from zero, where outs[7 - i] is the output
      port seen for bit i. */
  function MisoByte(outs: seq<int>): (b: int)
    requires |outs| == 8
    ensures forall i: nat :: i < 8 ==> Bit(b, i) == Bit(outs[7 - i], MISO)
    ensures IsByte(b)
  {
    var samples := MisoSamples(outs);
    AccumulateInRange(0, samples, 8);
    ByteIsEightBits(Accumulate(0, samples));
    Accumulate(0, samples)
  }
}
