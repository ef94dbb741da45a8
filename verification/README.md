# Bit-banged SPI register driver (clock phase 0, MSB first)

This project models the register driver of the tinyQV edge-counter test bench,
`test/tqv_reg.py`. The driver owns an 8-bit input port of the design under test
and reads an 8-bit output port. It drives chip select (CS, bit 4), the serial
clock (SCLK, bit 5) and the driver-to-peripheral data line (MOSI, bit 6). It
reads the peripheral-to-driver data line (MISO) from bit 3 of the output port.

It has two layers:

- **Bit helpers.**
  - `get_bit`, `set_bit`, `clear_bit` and `xor_bit` operate on Python integers.
  - The named pin wrappers are `pull_cs_high/low`, `spi_clk_high/low/invert` and `spi_mosi_high/low`.
  - `spi_miso_read` reads MISO.
- **Two frame generators.**
  - `spi_write_cpha0` and `spi_read_cpha0` send a command bit, three don't-care bits, a 4-bit address and an 8-bit data byte.
  - Each bit is sent as two SCLK inversions, with MOSI driven on the first.
  - The read variant also assembles a byte from eight MISO samples.

Every `port.value = ...` assignment is one element of a trace, so a frame is a
sequence of 35 port values.

Modules:

- `BitOps` (bit_ops.dfy): the four bit helpers on unbounded integers.
  - `Bit(v, i)` is Python's `(v >> i) & 1`, via floor division.
  - Each helper's contract gives every bit of its result.
  - `BitsDetermine` shows that those bits pin the value down.
  - Also here: or-ing samples into an accumulator, most significant first.
- `SpiPort` (spi_port.dfy): the pin wrappers and `spi_miso_read`.
  - Each wrapper states the CS, SCLK and MOSI levels of its result and its off-bus part, that is, every bit other than 4, 5 and 6.
  - `SameLines` shows that these four pin a port value down, so each wrapper's contract fixes its result.
- `FrameReference` (frame_reference.dfy): a step-by-step description of a clock-phase-0 frame.
  - It gives the CS, SCLK and MOSI level at each step, and no other bit changes.
  - Two trace observers know nothing of how the trace was produced: the count of SCLK inversions, and what a clock-phase-0 receiver captures: MOSI at each SCLK edge that leaves the idle level while CS is low. The idle level is the one SCLK had before the frame.
- `SpiFrame` (spi_frame.dfy): the two frames as pure functions, proved to follow the description.
- `FrameFacts` (frame_facts.dfy): what the frames promise:
  - bit isolation, CS framing, clock parity, MSB-first serialisation;
  - the receiver round trip;
  - dependence on the address mod 16 and the data mod 256 only;
  - MISO sample timing and byte reassembly.
- `SpiDriver` (spi_driver.dfy): the two coroutines as methods with the driver's own loops.
  - The don't-care loop counts up. The address and data loops count down from the top bit.
  - The read loop ors each MISO sample into `miso_byte`.
  - The output port is a sequence indexed by how many values have been assigned to the input port. So where the read sits in the loop body decides which value it sees.
  - They are proved to produce exactly the frames of `SpiFrame`.

## Driver notes

- **Command bit polarity.** The write frame drives MOSI high for the command bit (test/tqv_reg.py:65) and the read frame drives it low (test/tqv_reg.py:144).
- **Read data phase.** During the read data phase the driver puts the bits of its `data` argument on MOSI (test/tqv_reg.py:192-196), not zeros.
- **MISO sampling.** MISO is sampled after the first SCLK inversion of each data bit and before the second (test/tqv_reg.py:199).

## Model

| member | source | states |
|---|---|---|
| `BitOps.GetBit` | test/tqv_reg.py:8-10 | The result is 0 or exactly 2^i, not 0/1, and it is non-zero exactly when bit i of v is set. |
| `BitOps.SetBit` | test/tqv_reg.py:12-14 | Bit i of the result is 1 and every other bit is that of v. |
| `BitOps.ClearBit` | test/tqv_reg.py:16-18 | Bit i of the result is 0 and every other bit is that of v. |
| `BitOps.XorBit` | test/tqv_reg.py:20-22 | Bit i of the result is the complement of v's and every other bit is that of v. |
| `BitOps.GetAfterSetClear` | test/tqv_reg.py:8-18 | After set_bit, get_bit at the same position returns the mask 2^i; after clear_bit it returns 0. |
| `BitOps.XorBitTwice` | test/tqv_reg.py:20-22 | xor_bit at the same position twice gives back the value. |
| `BitOps.SetClearIdempotent` | test/tqv_reg.py:12-18 | set_bit and clear_bit are idempotent, and each overrides the other at the same position. |
| `BitOps.SetBitInRange` | test/tqv_reg.py:12-14 | Setting a bit below n keeps an n-bit value within n bits. |
| `BitOps.ClearBitInRange` | test/tqv_reg.py:16-18 | Clearing a bit keeps an n-bit value within n bits. |
| `BitOps.XorBitInRange` | test/tqv_reg.py:20-22 | Flipping a bit below n keeps an n-bit value within n bits. |
| `BitOps.OrShifted` | test/tqv_reg.py:200 | Or-ing a 0/1 bit shifted to pos into acc sets bit pos when the bit is 1 and keeps every other bit of acc. |
| `BitOps.Accumulate` | test/tqv_reg.py:187-205 | Or-ing a bit sequence in most significant first puts its last element at bit 0 and its first at bit n-1; every other bit stays as in the accumulator. |
| `BitOps.AccumulateInRange` | test/tqv_reg.py:184-205 | Or-ing at most n bits into an n-bit accumulator keeps it within n bits. |
| `BitOps.AccumulateFromZero` | test/tqv_reg.py:184-205 | Or-ing n bits into zero gives an n-bit number whose bit j is element n-1-j. |
| `BitOps.AccumulateBitsMsbFirst` | test/tqv_reg.py:184-205 | Reassembling the low n bits of x, taken most significant first, gives x mod 2^n, so splitting into bits and reassembling is a round trip. |
| `BitOps.LowBitsOfMod` | test/tqv_reg.py:87-121 | Reducing mod 2^n keeps bits 0..n-1, so get_bit below n sees only x mod 2^n. |
| `SpiPort.PullCsHigh` | test/tqv_reg.py:24-26 | The result is the port rebuilt with CS 1, SCLK, MOSI and all other bits unchanged. An 8-bit value stays 8-bit. |
| `SpiPort.PullCsLow` | test/tqv_reg.py:28-30 | The same with CS 0. |
| `SpiPort.SpiClkHigh` | test/tqv_reg.py:32-34 | The port rebuilt with SCLK 1; CS, MOSI and all other bits unchanged; 8-bit stays 8-bit. |
| `SpiPort.SpiClkLow` | test/tqv_reg.py:36-38 | The same with SCLK 0. |
| `SpiPort.SpiClkInvert` | test/tqv_reg.py:40-42 | The port rebuilt with SCLK complemented; CS, MOSI and all other bits unchanged; 8-bit stays 8-bit. |
| `SpiPort.SpiMosiHigh` | test/tqv_reg.py:44-46 | The port rebuilt with MOSI 1; CS, SCLK and all other bits unchanged; 8-bit stays 8-bit. |
| `SpiPort.SpiMosiLow` | test/tqv_reg.py:48-50 | The same with MOSI 0. |
| `SpiPort.SpiMisoRead` | test/tqv_reg.py:52-53 | Shifting get_bit's mask back down yields 0 or 1, equal to bit 3 of the output port. |
| `SpiPort.HelpersTouchOneLine` | test/tqv_reg.py:24-50 | The CS helpers change only bit 4, the SCLK helpers only bit 5, the MOSI helpers only bit 6. |
| `SpiPort.ClkInvertTwice` | test/tqv_reg.py:40-42 | Inverting SCLK twice restores the port. |
| `SpiFrame.DriveMosi` | test/tqv_reg.py:93-96 | Testing a get_bit mask against zero drives MOSI to the bit's level and leaves CS, SCLK and the other bits. |
| `SpiFrame.MisoSamples` | test/tqv_reg.py:199 | Each output-port snapshot reduces to a 0/1 MISO sample, in order. |
| `SpiFrame.Masks` | test/tqv_reg.py:87-92 | The bits a count-down loop tests are `get_bit(x, n-1)` down to `get_bit(x, 0)`, in that order. |
| `SpiFrame.OpeningShape` | test/tqv_reg.py:57-71 | `Opening`, the first three assignments of either frame (also test/tqv_reg.py:136-150): p0 with CS high; then CS low with MOSI at the command bit; then SCLK inverted. Nothing else changes. |
| `SpiFrame.SlotPair` | test/tqv_reg.py:76-121 | `Slots`/`Launch`, the assignments of the sending loops: stream bit q takes two assignments. The first inverts SCLK and drives MOSI to the bit. The second restores SCLK with MOSI still at the bit. CS and the other bits stay. |
| `SpiFrame.SlotsEndShape` | test/tqv_reg.py:76-121 | `SlotsEnd`, the port after the sending loops: CS, SCLK and the other bits are as before, and MOSI is at the last bit sent. |
| `SpiFrame.ClosingStep` | test/tqv_reg.py:123-131 | `Closing`, the last two assignments (also test/tqv_reg.py:207-215): SCLK goes back to its idle level, then CS is raised, with MOSI held at the last bit. |
| `SpiFrame.FrameFollowsReference` | test/tqv_reg.py:55-131 | `Frame`, opening, then slots, then closing, satisfies the step-by-step description at every step, for any initial port, command bit and stream. |
| `FrameReference.FollowsUnique` | test/tqv_reg.py:55-131 | The step-by-step description fixes the trace: two traces that follow it from the same port, command bit and stream are equal. So the frames' contracts pin them down exactly. |
| `SpiFrame.WriteFrame` | test/tqv_reg.py:55-131 | The write frame follows the description with command bit 1 and the 15 payload bits, and an 8-bit port stays 8-bit throughout. |
| `SpiFrame.ReadFrame` | test/tqv_reg.py:134-217 | The read frame follows the description with command bit 0 and the same payload; it keeps an 8-bit port 8-bit; it returns the byte the MISO samples spell. |
| `SpiFrame.ReadSnapshots` | test/tqv_reg.py:187-205 | Of the output-port values indexed by assignments made, the read frame samples the eight seen after steps 17, 19, ..., 31, the launches of data bits 7..0. |
| `SpiFrame.MisoByte` | test/tqv_reg.py:184-200 | Bit i of the returned byte is bit 3 of the output port seen for data bit i, and the byte is below 256. |
| `SpiFrame.SampledByte` | test/tqv_reg.py:187-205 | The byte the read loop accumulates from its samples is `MisoByte` of `ReadSnapshots`, and its bit i is MISO of the output port seen after step 31-2i, the launch of data bit i. |
| `FrameFacts.PayloadLevels` | test/tqv_reg.py:73-121 | The MOSI levels after the command bit are three zeros, address bits 3..0, then data bits 7..0. |
| `FrameFacts.FrameKeepsOtherBits` | test/tqv_reg.py:55-131 | Every step of a frame (35 steps) has bits 0-3 and 7 and above equal to the initial port's. |
| `FrameFacts.FrameCsFraming` | test/tqv_reg.py:57-131 | CS is high at the first and last step and low at every step in between. |
| `FrameFacts.FrameClockParity` | test/tqv_reg.py:68-126 | A frame inverts SCLK exactly 32 times, so SCLK ends at its initial level. |
| `FrameFacts.FrameSlot` | test/tqv_reg.py:73-121 | Stream bit q is on MOSI at both of its steps, 3+2q and 4+2q. |
| `FrameFacts.FrameAddressBits` | test/tqv_reg.py:87-103 | Address bit i is on MOSI at steps 15-2i and 16-2i, so the bits go out 3, 2, 1, 0. |
| `FrameFacts.FrameDataBits` | test/tqv_reg.py:105-121 | Data bit i is on MOSI at steps 31-2i and 32-2i, so the bits go out 7 down to 0. |
| `FrameFacts.FrameSerialisation` | test/tqv_reg.py:62-126 | MOSI at every step after the first: the command bit, three zeros, the address bits, the data bits, then data bit 0 held through the closing. |
| `FrameFacts.FrameMosiChangesOnLaunch` | test/tqv_reg.py:73-126 | MOSI changes only on the CS-low step and on the first SCLK inversion of a bit, never on the second one or the closing steps. |
| `FrameFacts.FrameCaptured` | test/tqv_reg.py:62-121 | Whatever SCLK's idle level, a clock-phase-0 receiver captures exactly the command bit, three zeros, address bits 3..0 and data bits 7..0. |
| `FrameFacts.FrameRoundTrip` | test/tqv_reg.py:55-131 | Whatever SCLK's idle level, decoding the captured bits gives back the command, the address mod 16 and the data mod 256. |
| `FrameFacts.CommandBits` | test/tqv_reg.py:62-66 | The write frame's CS-low step has MOSI 1 and the read frame's has MOSI 0 (test/tqv_reg.py:144). |
| `FrameFacts.ReadIsWriteButCommand` | test/tqv_reg.py:134-215 | The read frame's assignments are the write frame's except at the command bit's two steps, where MOSI is low. |
| `FrameFacts.PayloadLowBits` | test/tqv_reg.py:87-121 | Two payloads are equal exactly when the addresses agree mod 16 and the data agree mod 256. |
| `FrameFacts.WriteFrameLowBits` | test/tqv_reg.py:87-121 | Two write frames from the same port are equal exactly when the addresses agree mod 16 and the data mod 256. |
| `FrameFacts.ReadFrameLowBits` | test/tqv_reg.py:166-197 | Likewise for the read frame's trace and returned byte. |
| `FrameFacts.SameLowBits` | test/tqv_reg.py:87-121 | A trace whose launch steps carry the bits of two address/data pairs forces both pairs to agree mod 16 and mod 256. |
| `FrameFacts.ReadSampleTiming` | test/tqv_reg.py:187-205 | Step 31-2i of the read frame is the launch of data bit i and carries it on MOSI. The sample from the output-port value for data bit i becomes bit i of the returned byte. When the sample is taken is stated by `SpiDriver.SpiReadCpha0`. |
| `FrameFacts.MisoByteRoundTrip` | test/tqv_reg.py:184-217 | If the eight samples are the bits of byte b, most significant first, the returned byte is b. |
| `SpiDriver.LaunchBit` | test/tqv_reg.py:90-97 | The first half of a bit inverts SCLK and sets MOSI to the bit's level, appending one value. |
| `SpiDriver.CaptureBit` | test/tqv_reg.py:99-101 | The second half of a bit inverts SCLK only, appending one value. |
| `SpiDriver.Open` | test/tqv_reg.py:57-71 | The opening assignments leave CS low, MOSI at the command bit and SCLK inverted. |
| `SpiDriver.SendDontCareBit` | test/tqv_reg.py:76-85 | One don't-care iteration extends the sent prefix by one zero. |
| `SpiDriver.SendDontCare` | test/tqv_reg.py:73-85 | The don't-care loop appends the slots of three zeros. |
| `SpiDriver.SendOne` | test/tqv_reg.py:90-103 | One loop iteration, its launch and capture assignments, extends the values sent so far by the slots of one more bit. |
| `SpiDriver.SendBitAt` | test/tqv_reg.py:90-103 | One count-down iteration extends the sent prefix by `get_bit(x, iterator)`. |
| `SpiDriver.SendMsbFirst` | test/tqv_reg.py:87-103 | The count-down loop appends the slots of bits top..0 of x, most significant first. |
| `SpiDriver.SendSampled` | test/tqv_reg.py:190-205 | One read-data iteration sends one more bit. It ors in, at position `iterator`, `spi_miso_read` of the output port as seen once the launch assignment has been made and before the capture. |
| `SpiDriver.SampleBitAt` | test/tqv_reg.py:190-205 | One read-data iteration sends one bit and ors the MISO sample in at its position, keeping the rest of the byte to be built. |
| `SpiDriver.SendAndSample` | test/tqv_reg.py:184-205 | The read data loop appends the slots of data bits 7..0. It returns the byte spelled by the MISO samples of the output port, each seen between its bit's launch and capture assignments. |
| `SpiDriver.Close` | test/tqv_reg.py:123-131 | The closing inverts SCLK and raises CS. |
| `SpiDriver.SpiWriteCpha0` | test/tqv_reg.py:55-131 | The method's loops assign exactly the write frame. |
| `SpiDriver.SpiReadCpha0` | test/tqv_reg.py:134-217 | The method's loops assign exactly the read frame. The byte is `ReadFrame`'s for the output-port values `ReadSnapshots` picks. Bit i of the byte is MISO of the output port seen after step 31-2i, which launches data bit i, and before step 32-2i, which captures it. |

## Left out

- The cocotb `async`/`await` machinery and the `ClockCycles(clk, 10)` waits between assignments. They are simulation timing; each wait is collapsed, so the next assignment follows the previous one in the trace.
- Reading the live input port. Each `temp = port.value` is modelled as reading back the value last assigned, the value the settling wait makes visible.
- Reading the live `port_out` signal. `SpiReadCpha0` instead takes `portOut`, where `portOut[m]` is the output port as seen once m values have been assigned to the input port. `ReadFrame` takes the eight values sampled. What the peripheral drives on port_out is outside this model.
- SpiFrame.ReadFrame: requires exactly eight output-port snapshots, one per sample the driver takes, because the live port is replaced by these eight values.
- SpiDriver.SpiReadCpha0: requires one output-port value per step of the frame (35), because the live port is replaced by that sequence.
- test/test.py is not part of this model. It drives a peripheral whose RTL and `tqv` helper module are not available here, and its register-address constants are only labels.
- Framing errors. The driver checks nothing: not the address or data width, not CS glitches. So nothing is modelled, and out-of-range address or data bits are simply never inspected (`FrameFacts.WriteFrameLowBits`).
- Port values are unbounded integers, as in Python. No 8-bit wrap-around is needed: the helpers only touch bits 4-6 and are proved to keep an 8-bit value 8-bit.
