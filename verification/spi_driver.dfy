/** The register driver's two coroutines, `spi_write_cpha0` and `spi_read_cpha0`,
    as methods with the driver's own loop structure: the opening assignments,
    the don't-care loop counting up, the address and data loops counting down
    from the top bit, and the closing assignments. Each assignment to the input
    port appends the new value to `trace`; the port is read back as the value last
    written. The methods produce exactly the frames of `SpiFrame`. */
module SpiDriver {
  import opened BitOps
  import opened SpiPort
  import opened FrameReference
  import opened SpiFrame

  /** Sending one more bit appends its launch and capture values to the slots. */
  lemma {:induction false} SlotsSnoc(p: int, s: seq<int>, b: int)
    ensures var launch := Launch(SlotsEnd(p, s), b);
            && Slots(p, s + [b]) == Slots(p, s) + [launch, SpiClkInvert(launch)]
            && SlotsEnd(p, s + [b]) == SpiClkInvert(launch)
    decreases |s|
  {
    if |s| == 0 {
      assert s + [b] == [b];
    } else {
      var capture := SpiClkInvert(Launch(p, s[0]));
      assert (s + [b])[0] == s[0];
      assert (s + [b])[1..] == s[1..] + [b];
      SlotsSnoc(capture, s[1..], b);
    }
  }

  /** The trace and port after one more bit, given those after the bits sent so far. */
  lemma SendStep(c: int, head: seq<int>, sent: seq<int>, b: int, port: int, trace: seq<int>)
    requires trace == head + Slots(c, sent) && port == SlotsEnd(c, sent)
    ensures var launch := Launch(port, b);
            && trace + [launch] + [SpiClkInvert(launch)] == head + Slots(c, sent + [b])
            && SpiClkInvert(launch) == SlotsEnd(c, sent + [b])
  {
    var launch := Launch(port, b);
    SlotsSnoc(c, sent, b);
    AppendPair(head, Slots(c, sent), launch, SpiClkInvert(launch));
  }

  lemma AppendPair(h: seq<int>, s: seq<int>, x: int, y: int)
    ensures h + s + [x] + [y] == h + (s + [x, y])
  {
  }

  /** The launch half of a bit: `spi_clk_invert`, then `spi_mosi_low` or
      `spi_mosi_high` as the bit is zero or not, assigned to the port. The
      don't-care loop calls `spi_mosi_low` directly, which is the bit zero. */
  method LaunchBit(port: int, trace: seq<int>, bit: int) returns (port': int, trace': seq<int>)
    ensures port' == Launch(port, bit) && trace' == trace + [port']
    ensures Sclk(port') == 1 - Sclk(port) && Mosi(port') == Level(bit)
  {
    var result := SpiClkInvert(port);
    port' := if bit == 0 then SpiMosiLow(result) else SpiMosiHigh(result);
    trace' := trace + [port'];
  }

  /** The capture half of a bit: `spi_clk_invert` assigned to the port. */
  method CaptureBit(port: int, trace: seq<int>) returns (port': int, trace': seq<int>)
    ensures port' == SpiClkInvert(port) && trace' == trace + [port']
    ensures Sclk(port') == 1 - Sclk(port) && Mosi(port') == Mosi(port)
  {
    port' := SpiClkInvert(port);
    trace' := trace + [port'];
  }

  /** The loop state after sending `sofar` from `c`: the values assigned so far
      extend `head` by the slots of `sofar`, and `port` holds the last of them. */
  ghost predicate Sent(c: int, head: seq<int>, sofar: seq<int>, port: int, trace: seq<int>)
  {
    trace == head + Slots(c, sofar) && port == SlotsEnd(c, sofar)
  }

  /** One iteration of a sending loop: the launch and the capture assignment of
      one more bit. */
  method SendOne(c: int, head: seq<int>, ghost sofar: seq<int>, port0: int, trace0: seq<int>, bit: int)
    returns (port: int, trace: seq<int>)
    requires Sent(c, head, sofar, port0, trace0)
    ensures Sent(c, head, sofar + [bit], port, trace)
  {
    SendStep(c, head, sofar, bit, port0, trace0);
    port, trace := LaunchBit(port0, trace0, bit);
    port, trace := CaptureBit(port, trace);
  }

  /** One iteration of the read frame's data loop: the launch assignment, then
      `miso_byte | (spi_miso_read(port_out) << pos)`, then the capture assignment.
      portOut[m] is port_out as seen once m values have been assigned, so the
      value read is the one seen after the launch and before the capture. */
  method SendSampled(c: int, head: seq<int>, ghost sofar: seq<int>, port0: int, trace0: seq<int>, bit: int,
                     portOut: seq<int>, misoByte0: int, pos: nat)
    returns (port: int, trace: seq<int>, misoByte: int)
    requires Sent(c, head, sofar, port0, trace0) && |trace0| + 1 < |portOut|
    ensures Sent(c, head, sofar + [bit], port, trace)
    ensures |trace| == |trace0| + 2
    ensures misoByte == OrShifted(misoByte0, SpiMisoRead(portOut[|trace0| + 1]), pos)
  {
    SendStep(c, head, sofar, bit, port0, trace0);
    port, trace := LaunchBit(port0, trace0, bit);
    var misoBit := SpiMisoRead(portOut[|trace|]);
    misoByte := OrShifted(misoByte0, misoBit, pos);
    port, trace := CaptureBit(port, trace);
  }

  /** CS high; CS low with the command bit; SCLK inverted. */
  method Open(p0: int, isWrite: bool) returns (port: int, trace: seq<int>)
    ensures trace == Opening(p0, isWrite) && port == trace[2]
    ensures Cs(port) == 0 && Mosi(port) == Command(isWrite) && Sclk(port) == 1 - Sclk(p0)
  {
    port := PullCsHigh(p0);
    trace := [port];
    var result := PullCsLow(port);
    port := if isWrite then SpiMosiHigh(result) else SpiMosiLow(result);
    trace := trace + [port];
    port := SpiClkInvert(port);
    trace := trace + [port];
    OpeningShape(p0, isWrite);
  }

  /** The don't-care loop's state: the first `done` of its zeros sent from `c`. */
  ghost predicate SentDontCare(c: int, head: seq<int>, done: int, port: int, trace: seq<int>)
  {
    0 <= done <= |DONT_CARE| && Sent(c, head, DONT_CARE[..done], port, trace)
  }

  /** One iteration of the don't-care loop: `spi_mosi_low` between the two
      inversions of SCLK, then `iterator += 1`. */
  method SendDontCareBit(c: int, head: seq<int>, index: int, port0: int, trace0: seq<int>)
    returns (port: int, trace: seq<int>, next: int)
    requires 0 <= index < |DONT_CARE| && SentDontCare(c, head, index, port0, trace0)
    ensures next == index + 1 && SentDontCare(c, head, next, port, trace)
  {
    next := index + 1;
    assert DONT_CARE[..index + 1] == DONT_CARE[..index] + [0];
    port, trace := SendOne(c, head, DONT_CARE[..index], port0, trace0, 0);
  }

  /** `iterator = 0; while iterator < 3`: three zeros on MOSI. */
  method SendDontCare(c: int, head: seq<int>) returns (port: int, trace: seq<int>)
    ensures trace == head + Slots(c, DONT_CARE) && port == SlotsEnd(c, DONT_CARE)
  {
    port, trace := c, head;
    assert DONT_CARE[..0] == [];
    var index := 0;
    while index < 3
      invariant 0 <= index <= 3
      invariant SentDontCare(c, head, index, port, trace)
    {
      port, trace, index := SendDontCareBit(c, head, index, port, trace);
    }
    assert DONT_CARE[..3] == DONT_CARE;
  }

  /** A count-down loop's state: the top `done` bits of x, most significant
      first, sent after `sent` from `c`. */
  ghost predicate SentMsbFirst(c: int, head: seq<int>, sent: seq<int>, x: int, top: nat, done: int,
                               port: int, trace: seq<int>)
  {
    0 <= done <= top + 1 && Sent(c, head, sent + Masks(x, top + 1)[..done], port, trace)
  }

  /** A count-down loop that has sent all top + 1 bits. */
  lemma SentAllBits(c: int, head: seq<int>, sent: seq<int>, x: int, top: nat, done: int, port: int, trace: seq<int>)
    requires done == top + 1 && SentMsbFirst(c, head, sent, x, top, done, port, trace)
    ensures trace == head + Slots(c, sent + Masks(x, top + 1)) && port == SlotsEnd(c, sent + Masks(x, top + 1))
  {
    assert Masks(x, top + 1)[..done] == Masks(x, top + 1);
  }

  /** One iteration of a count-down loop: `get_bit(x, iterator)` decides
      between `spi_mosi_high` and `spi_mosi_low`, then `iterator -= 1`. */
  method SendBitAt(c: int, head: seq<int>, ghost sent: seq<int>, x: int, top: nat, index: int,
                   port0: int, trace0: seq<int>)
    returns (port: int, trace: seq<int>, next: int)
    requires 0 <= index <= top && SentMsbFirst(c, head, sent, x, top, top - index, port0, trace0)
    ensures next == index - 1 && SentMsbFirst(c, head, sent, x, top, top - next, port, trace)
  {
    next := index - 1;
    ghost var sofar := sent + Masks(x, top + 1)[..top - index];
    var bit := GetBit(x, index);
    MaskStep(sent, x, top, index, next, sofar);
    port, trace := SendOne(c, head, sofar, port0, trace0, bit);
  }

  /** `iterator = top; while iterator >= 0`: `get_bit(x, iterator)` for iterator
      from top down to 0, appended to the bits already sent. */
  method SendMsbFirst(c: int, head: seq<int>, ghost sent: seq<int>, port0: int, trace0: seq<int>, x: int, top: nat)
    returns (port: int, trace: seq<int>)
    requires trace0 == head + Slots(c, sent) && port0 == SlotsEnd(c, sent)
    ensures trace == head + Slots(c, sent + Masks(x, top + 1))
    ensures port == SlotsEnd(c, sent + Masks(x, top + 1))
  {
    port, trace := port0, trace0;
    assert sent + Masks(x, top + 1)[..0] == sent;
    var index: int := top;
    while index >= 0
      invariant -1 <= index <= top
      invariant SentMsbFirst(c, head, sent, x, top, top - index, port, trace)
    {
      port, trace, index := SendBitAt(c, head, sent, x, top, index, port, trace);
    }
    SentAllBits(c, head, sent, x, top, top - index, port, trace);
  }

  /** The trailing SCLK inversion, then CS high. */
  method Close(port0: int, trace0: seq<int>) returns (port: int, trace: seq<int>)
    ensures trace == trace0 + Closing(port0) && port == trace[|trace| - 1]
    ensures Cs(port) == 1 && Sclk(port) == 1 - Sclk(port0)
  {
    port := SpiClkInvert(port0);
    trace := trace0 + [port];
    port := PullCsHigh(port);
    trace := trace + [port];
  }

  /** `spi_write_cpha0`: the values assigned to the input port are the write frame. */
  method SpiWriteCpha0(p0: int, address: int, data: int) returns (trace: seq<int>)
    ensures trace == WriteFrame(p0, address, data)
  {
    var head, c, port;
    c, head := Open(p0, true);
    port, trace := SendDontCare(c, head);
    port, trace := SendMsbFirst(c, head, DONT_CARE, port, trace, address, 3);
    port, trace := SendMsbFirst(c, head, DONT_CARE + Masks(address, 4), port, trace, data, 7);
    assert DONT_CARE + Masks(address, 4) + Masks(data, 8) == Payload(address, data);
    port, trace := Close(port, trace);
    assert head + Slots(c, Payload(address, data)) + Closing(SlotsEnd(c, Payload(address, data)))
        == Frame(p0, true, Payload(address, data));
  }

  /** The read loop's accumulator: or-ing the samples from `done` on into `acc`
      yields `whole`. */
  ghost predicate Remaining(acc: int, samples: seq<int>, done: nat, whole: int)
  {
    IsBits(samples) && done <= |samples| && Accumulate(acc, samples[done..]) == whole
  }

  /** An accumulator with no samples left holds the whole byte. */
  lemma SampledAll(acc: int, samples: seq<int>, done: nat, whole: int)
    requires done == |samples| && Remaining(acc, samples, done, whole)
    ensures acc == whole
  {
    assert samples[done..] == [];
  }

  /** One step of the read loop's `miso_byte = miso_byte | (miso_bit << iterator)`:
      or-ing sample 7 - i in at position i leaves the same byte to be built from
      the samples after it. */
  lemma AccumulateStep(acc: int, samples: seq<int>, top: nat, i: nat, next: int, bit: int, whole: int)
    requires |samples| == top + 1 && i <= top && next == i - 1 && bit == samples[top - i]
    requires Remaining(acc, samples, top - i, whole)
    ensures bit == 0 || bit == 1
    ensures Remaining(OrShifted(acc, bit, i), samples, top - next, whole)
  {
    assert samples[top - i..][0] == samples[top - i];
    assert samples[top - i..][1..] == samples[top - next..];
  }

  /** One step of a count-down loop: bit i of x extends the bits sent so far. */
  lemma MaskStep(sent: seq<int>, x: int, top: nat, i: nat, next: int, sofar: seq<int>)
    requires i <= top && next == i - 1 && sofar == sent + Masks(x, top + 1)[..top - i]
    ensures sofar + [GetBit(x, i)] == sent + Masks(x, top + 1)[..top - next]
  {
    var bits := Masks(x, top + 1);
    assert GetBit(x, i) == bits[top - i];
    assert bits[..top - next] == bits[..top - i] + [bits[top - i]];
  }

  /** The read frame's data loop state: as `SentMsbFirst`, two assignments per
      bit sent so far after the first base, and or-ing the MISO samples still to
      be taken into `misoByte` gives the byte all of them spell. */
  ghost predicate SampledMsbFirst(c: int, head: seq<int>, sent: seq<int>, x: int, portOut: seq<int>, base: nat,
                                  top: nat, done: int, port: int, trace: seq<int>, misoByte: int)
  {
    && base + 2 * (top + 1) <= |portOut|
    && SentMsbFirst(c, head, sent, x, top, done, port, trace)
    && |trace| == base + 2 * done
    && var samples := MisoSamples(Snapshots(portOut, base, top + 1));
       Remaining(misoByte, samples, done, Accumulate(0, samples))
  }

  /** The data loop before its first iteration. */
  lemma SampledNone(c: int, head: seq<int>, sent: seq<int>, x: int, portOut: seq<int>, base: nat, top: nat,
                    done: int, port: int, trace: seq<int>)
    requires done == 0 && base == |trace| && base + 2 * (top + 1) <= |portOut|
    requires trace == head + Slots(c, sent) && port == SlotsEnd(c, sent)
    ensures SampledMsbFirst(c, head, sent, x, portOut, base, top, done, port, trace, 0)
  {
    var samples := MisoSamples(Snapshots(portOut, base, top + 1));
    assert sent + Masks(x, top + 1)[..0] == sent;
    assert samples[0..] == samples;
  }

  /** The data loop once all top + 1 bits are sent and sampled. */
  lemma SampledAllBits(c: int, head: seq<int>, sent: seq<int>, x: int, portOut: seq<int>, base: nat, top: nat,
                       done: int, port: int, trace: seq<int>, misoByte: int)
    requires done == top + 1
    requires SampledMsbFirst(c, head, sent, x, portOut, base, top, done, port, trace, misoByte)
    ensures trace == head + Slots(c, sent + Masks(x, top + 1)) && port == SlotsEnd(c, sent + Masks(x, top + 1))
    ensures misoByte == Accumulate(0, MisoSamples(Snapshots(portOut, base, top + 1)))
  {
    var samples := MisoSamples(Snapshots(portOut, base, top + 1));
    SentAllBits(c, head, sent, x, top, done, port, trace);
    SampledAll(misoByte, samples, done, Accumulate(0, samples));
  }

  /** The sample for the bit after the first `done` is the MISO level of port_out
      as seen once the next launch assignment, number |trace| + 1, has been made. */
  lemma SnapshotAt(portOut: seq<int>, base: nat, top: nat, done: nat, trace: seq<int>)
    requires base + 2 * (top + 1) <= |portOut| && done <= top && |trace| == base + 2 * done
    ensures |trace| + 1 < |portOut|
    ensures MisoSamples(Snapshots(portOut, base, top + 1))[done] == SpiMisoRead(portOut[|trace| + 1])
  {
  }

  /** One iteration of the read frame's data loop: the launch assignment, then
      `spi_miso_read(port_out)` or-ed into `miso_byte` at position `iterator`,
      then the capture assignment and `iterator -= 1`. */
  method SampleBitAt(c: int, head: seq<int>, ghost sent: seq<int>, x: int, portOut: seq<int>, ghost base: nat,
                     top: nat, index: int, port0: int, trace0: seq<int>, misoByte0: int)
    returns (port: int, trace: seq<int>, misoByte: int, next: int)
    requires 0 <= index <= top
    requires SampledMsbFirst(c, head, sent, x, portOut, base, top, top - index, port0, trace0, misoByte0)
    ensures next == index - 1
    ensures SampledMsbFirst(c, head, sent, x, portOut, base, top, top - next, port, trace, misoByte)
  {
    next := index - 1;
    ghost var samples := MisoSamples(Snapshots(portOut, base, top + 1));
    ghost var sofar := sent + Masks(x, top + 1)[..top - index];
    var bit := GetBit(x, index);
    MaskStep(sent, x, top, index, next, sofar);
    SnapshotAt(portOut, base, top, top - index, trace0);
    AccumulateStep(misoByte0, samples, top, index, next, SpiMisoRead(portOut[|trace0| + 1]), Accumulate(0, samples));
    port, trace, misoByte := SendSampled(c, head, sofar, port0, trace0, bit, portOut, misoByte0, index);
  }

  /** The read frame's data loop: as `SendMsbFirst`, with `spi_miso_read(port_out)`
      taken between the launch and the capture of each bit and or-ed into
      `miso_byte` at the bit's position. portOut[m] is port_out as seen once m
      values have been assigned, so the samples are `Snapshots(portOut, |trace0|, top + 1)`. */
  method SendAndSample(c: int, head: seq<int>, ghost sent: seq<int>, port0: int, trace0: seq<int>, x: int,
                       portOut: seq<int>, top: nat)
    returns (port: int, trace: seq<int>, misoByte: int)
    requires |trace0| + 2 * (top + 1) <= |portOut|
    requires trace0 == head + Slots(c, sent) && port0 == SlotsEnd(c, sent)
    ensures trace == head + Slots(c, sent + Masks(x, top + 1))
    ensures port == SlotsEnd(c, sent + Masks(x, top + 1))
    ensures misoByte == Accumulate(0, MisoSamples(Snapshots(portOut, |trace0|, top + 1)))
  {
    port, trace := port0, trace0;
    misoByte := 0;
    var index: int := top;
    SampledNone(c, head, sent, x, portOut, |trace0|, top, top - index, port, trace);
    while index >= 0
      invariant -1 <= index <= top
      invariant SampledMsbFirst(c, head, sent, x, portOut, |trace0|, top, top - index, port, trace, misoByte)
    {
      port, trace, misoByte, index :=
        SampleBitAt(c, head, sent, x, portOut, |trace0|, top, index, port, trace, misoByte);
    }
    SampledAllBits(c, head, sent, x, portOut, |trace0|, top, top - index, port, trace, misoByte);
  }

  /** `spi_read_cpha0`: the values assigned to the input port are the read frame,
      and the returned `miso_byte` is the byte the MISO samples spell. portOut[m]
      is port_out as seen once m values have been assigned to the input port, so
      bit i of the byte comes from port_out as seen after step 31 - 2i, which
      launches data bit i, and before step 32 - 2i, which captures it. */
  method SpiReadCpha0(p0: int, portOut: seq<int>, address: int, data: int) returns (trace: seq<int>, misoByte: int)
    requires |portOut| == FrameLength(15)
    ensures ReadResult(trace, misoByte) == ReadFrame(p0, ReadSnapshots(portOut), address, data)
    ensures forall i: nat :: i < 8 ==> Bit(misoByte, i) == Bit(portOut[32 - 2 * i], MISO)
  {
    var head, c, port;
    c, head := Open(p0, false);
    port, trace := SendDontCare(c, head);
    port, trace := SendMsbFirst(c, head, DONT_CARE, port, trace, address, 3);
    assert |trace| == 17;
    port, trace, misoByte := SendAndSample(c, head, DONT_CARE + Masks(address, 4), port, trace, data, portOut, 7);
    SampledByte(portOut, misoByte);
    assert DONT_CARE + Masks(address, 4) + Masks(data, 8) == Payload(address, data);
    port, trace := Close(port, trace);
    assert head + Slots(c, Payload(address, data)) + Closing(SlotsEnd(c, Payload(address, data)))
        == Frame(p0, false, Payload(address, data));
  }
}
