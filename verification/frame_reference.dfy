/** What a clock-phase-0 register frame looks like, described step by step rather
    than by how the driver computes it.

    A frame that starts from port value p0 and sends a command bit followed by a
    stream of n bits consists of 2n + 5 port assignments:
      step 0            CS high
      step 1            CS low, MOSI := command bit
      step 2            SCLK inverted (the command bit's capture)
      steps 3 + 2q      SCLK inverted, MOSI := stream bit q   (launch half)
      steps 4 + 2q      SCLK inverted                         (capture half)
      step 2n + 3       SCLK inverted (trailing toggle)
      step 2n + 4       CS high
    and no step touches any bit of the port other than CS, SCLK and MOSI.

    Beside that description sit two observers of a trace that do not know how it
    was produced: the number of SCLK inversions, and what a clock-phase-0
    receiver captures (MOSI at every SCLK edge away from the idle level while CS
    is low). */
module FrameReference {
  import opened BitOps
  import opened SpiPort

  /** Number of port assignments in a frame that sends n bits after the command bit. */
  function FrameLength(n: nat): nat
  {
    2 * n + 5
  }

  /** The MOSI level that sends b: the driver tests `get_bit(...) == 0`, so any
      non-zero mask sends a one. */
  function Level(b: int): int
  {
    if b == 0 then 0 else 1
  }

  function Levels(stream: seq<int>): (ls: seq<int>)
    ensures |ls| == |stream|
    ensures forall k :: 0 <= k < |stream| ==> ls[k] == Level(stream[k])
  {
    if |stream| == 0 then [] else [Level(stream[0])] + Levels(stream[1..])
  }

  /** CS at step k of a frame of len steps: high at the first and last step only. */
  function CsAt(k: nat, len: nat): int
  {
    if k == 0 || k + 1 == len then 1 else 0
  }

  /** SCLK at step k, when it stood at s0 before the frame: inverted on the even
      steps from 2 up to the last but one, back at s0 on every other step. */
  function SclkAt(s0: int, k: nat, len: nat): int
  {
    if 2 <= k && k + 1 < len && k % 2 == 0 then 1 - s0 else s0
  }

  /** MOSI at step k, when it stood at m0 before the frame. */
  function MosiAt(m0: int, command: int, stream: seq<int>, k: nat): int
  {
    if k == 0 then m0
    else if k < 3 || |stream| == 0 then command
    else if k - 3 < 2 * |stream| then Level(stream[(k - 3) / 2])
    else Level(stream[|stream| - 1])
  }

  /** q is p0 with CS, SCLK and MOSI set to the given levels. */
  predicate Drives(p0: int, q: int, cs: int, sclk: int, mosi: int)
  {
    && OffBus(q) == OffBus(p0)
    && Cs(q) == cs
    && Sclk(q) == sclk
    && Mosi(q) == mosi
  }

  /** t is the frame that starts from p0 and sends the command bit, then stream. */
  predicate Follows(p0: int, command: int, stream: seq<int>, t: seq<int>)
  {
    && (command == 0 || command == 1)
    && |t| == FrameLength(|stream|)
    && forall k :: 0 <= k < |t| ==>
         Drives(p0, t[k], CsAt(k, |t|), SclkAt(Sclk(p0), k, |t|), MosiAt(Mosi(p0), command, stream, k))
  }

  /** The launch half of one of the n stream bits. */
  predicate IsLaunchStep(k: nat, n: nat)
  {
    3 <= k < 3 + 2 * n && k % 2 == 1
  }

  /** The port value just before step k. */
  function Before(p0: int, t: seq<int>, k: nat): int
    requires k < |t|
  {
    if k == 0 then p0 else t[k - 1]
  }

  /** How many of the first n steps of t invert SCLK. */
  function Inversions(p0: int, t: seq<int>, n: nat): nat
    requires n <= |t|
  {
    if n == 0 then 0
    else Inversions(p0, t, n - 1) + (if Sclk(t[n - 1]) != Sclk(Before(p0, t, n - 1)) then 1 else 0)
  }

  /** Step k is a leading SCLK edge while CS is low: SCLK leaves its idle level,
      the level it had before the frame. With SCLK idling low this is a rising
      edge, with SCLK idling high a falling one. */
  predicate IsCapture(p0: int, t: seq<int>, k: nat)
    requires k < |t|
  {
    Cs(t[k]) == 0 && Sclk(Before(p0, t, k)) == Sclk(p0) && Sclk(t[k]) != Sclk(p0)
  }

  /** The MOSI levels a clock-phase-0 receiver captures during the first n steps of t. */
  function Captured(p0: int, t: seq<int>, n: nat): seq<int>
    requires n <= |t|
  {
    if n == 0 then []
    else Captured(p0, t, n - 1) + (if IsCapture(p0, t, n - 1) then [Mosi(t[n - 1])] else [])
  }

  // ---------------------------------------------------------------------------

  /** What step k of a frame reads as: the three line levels of the description
      and p0's value everywhere else. */
  lemma FollowsAt(p0: int, command: int, stream: seq<int>, t: seq<int>, k: nat)
    requires Follows(p0, command, stream, t) && k < |t|
    ensures Cs(t[k]) == CsAt(k, |t|)
    ensures Sclk(t[k]) == SclkAt(Sclk(p0), k, |t|)
    ensures Mosi(t[k]) == MosiAt(Mosi(p0), command, stream, k)
    ensures OffBus(t[k]) == OffBus(p0)
    ensures IsByte(p0) ==> IsByte(t[k])
  {
    assert Drives(p0, t[k], CsAt(k, |t|), SclkAt(Sclk(p0), k, |t|), MosiAt(Mosi(p0), command, stream, k));
    Decompose(t[k]);
    ComposeLines(p0, CsAt(k, |t|), SclkAt(Sclk(p0), k, |t|), MosiAt(Mosi(p0), command, stream, k));
  }

  /** An 8-bit port stays 8-bit throughout a frame. */
  lemma FollowsKeepsByte(p0: int, command: int, stream: seq<int>, t: seq<int>)
    requires Follows(p0, command, stream, t)
    ensures IsByte(p0) ==> forall k :: 0 <= k < |t| ==> IsByte(t[k])
  {
    forall k | 0 <= k < |t|
      ensures IsByte(p0) ==> IsByte(t[k])
    {
      FollowsAt(p0, command, stream, t, k);
    }
  }

  /** No step of a frame touches a bit of the port other than CS, SCLK and MOSI. */
  lemma FollowsKeepsOtherBits(p0: int, command: int, stream: seq<int>, t: seq<int>, k: nat)
    requires Follows(p0, command, stream, t) && k < |t|
    ensures forall j: nat :: j != CS && j != SCLK && j != MOSI ==> Bit(t[k], j) == Bit(p0, j)
  {
    FollowsAt(p0, command, stream, t, k);
    SameOffBusBits(p0, t[k]);
  }

  /** The description fixes the frame: two traces that both follow it from the
      same port, command bit and stream are equal. */
  lemma FollowsUnique(p0: int, command: int, stream: seq<int>, t1: seq<int>, t2: seq<int>)
    requires Follows(p0, command, stream, t1) && Follows(p0, command, stream, t2)
    ensures t1 == t2
  {
    forall k | 0 <= k < |t1|
      ensures t1[k] == t2[k]
    {
      FollowsAt(p0, command, stream, t1, k);
      FollowsAt(p0, command, stream, t2, k);
      SameLines(t1[k], t2[k]);
    }
  }

  lemma SclkAtStep(s0: int, k: nat, n: nat)
    requires s0 == 0 || s0 == 1
    requires 0 < k < FrameLength(n)
    ensures var len := FrameLength(n);
            SclkAt(s0, k, len) != SclkAt(s0, k - 1, len) <==> 2 <= k && k + 2 <= len
  {
  }

  /** Step k inverts SCLK exactly when it lies between step 2 and the last but one step. */
  lemma StepInvertsClock(p0: int, command: int, stream: seq<int>, t: seq<int>, k: nat)
    requires Follows(p0, command, stream, t) && k < |t|
    ensures Sclk(t[k]) != Sclk(Before(p0, t, k)) <==> 2 <= k && k + 2 <= |t|
  {
    FollowsAt(p0, command, stream, t, k);
    if k > 0 {
      FollowsAt(p0, command, stream, t, k - 1);
      SclkAtStep(Sclk(p0), k, |stream|);
    }
  }

  /** The number of inversions among the first n steps of a frame. */
  function InversionsBefore(n: nat, len: nat): int
  {
    if n <= 2 then 0 else if n < len then n - 2 else len - 3
  }

  lemma InversionsSoFar(p0: int, command: int, stream: seq<int>, t: seq<int>, n: nat)
    requires Follows(p0, command, stream, t) && n <= |t|
    ensures Inversions(p0, t, n) == InversionsBefore(n, |t|)
  {
    var i := 0;
    while i < n
      invariant i <= n
      invariant Inversions(p0, t, i) == InversionsBefore(i, |t|)
    {
      StepInvertsClock(p0, command, stream, t, i);
      i := i + 1;
    }
  }

  /** A frame of n stream bits inverts SCLK 2n + 2 times, an even number, so SCLK
      ends where it started. */
  lemma FollowsClockParity(p0: int, command: int, stream: seq<int>, t: seq<int>)
    requires Follows(p0, command, stream, t)
    ensures Inversions(p0, t, |t|) == 2 * |stream| + 2
    ensures Sclk(t[|t| - 1]) == Sclk(p0)
  {
    InversionsSoFar(p0, command, stream, t, |t|);
    FollowsAt(p0, command, stream, t, |t| - 1);
  }

  lemma MosiAtStep(m0: int, command: int, stream: seq<int>, k: nat)
    requires 0 < k < FrameLength(|stream|)
    ensures MosiAt(m0, command, stream, k) != MosiAt(m0, command, stream, k - 1) ==>
              k == 1 || IsLaunchStep(k, |stream|)
  {
    if 4 <= k < 3 + 2 * |stream| && k % 2 == 0 {
      assert (k - 3) / 2 == (k - 4) / 2;
    }
  }

  /** MOSI changes only on the CS-low step and on the launch halves of the stream
      bits; never on a capture half, the trailing toggle or the CS steps. */
  lemma MosiChangesOnlyAtLaunch(p0: int, command: int, stream: seq<int>, t: seq<int>, k: nat)
    requires Follows(p0, command, stream, t) && k < |t|
    ensures Mosi(t[k]) != Mosi(Before(p0, t, k)) ==> k == 1 || IsLaunchStep(k, |stream|)
  {
    FollowsAt(p0, command, stream, t, k);
    if k > 0 {
      FollowsAt(p0, command, stream, t, k - 1);
      MosiAtStep(Mosi(p0), command, stream, k);
    }
  }

  /** How many receiver captures fall in the first n steps of a frame of len
      steps: one on each even step from 2 to len - 3. */
  function CapturesBefore(n: nat, len: nat): int
  {
    if n <= 2 then 0 else if n + 2 <= len then (n - 1) / 2 else (len - 3) / 2
  }

  /** Whatever SCLK's idle level s0, step k is a capture exactly on the even
      steps from 2 up to two before the end. */
  lemma CaptureAt(s0: int, k: nat, n: nat)
    requires s0 == 0 || s0 == 1
    requires k < FrameLength(n)
    ensures var len := FrameLength(n);
            (&& CsAt(k, len) == 0
             && (if k == 0 then s0 else SclkAt(s0, k - 1, len)) == s0
             && SclkAt(s0, k, len) != s0)
            <==> 2 <= k && k + 2 < len && k % 2 == 0
  {
  }

  lemma StepCaptures(p0: int, command: int, stream: seq<int>, t: seq<int>, k: nat)
    requires Follows(p0, command, stream, t) && k < |t|
    ensures IsCapture(p0, t, k) <==> 2 <= k && k + 2 < |t| && k % 2 == 0
  {
    FollowsAt(p0, command, stream, t, k);
    if k > 0 {
      FollowsAt(p0, command, stream, t, k - 1);
    }
    CaptureAt(Sclk(p0), k, |stream|);
  }

  /** Counting captures step by step: a capture step adds one to the count and
      carries the next level of the command-and-stream sequence, any other step
      adds nothing. */
  lemma CaptureStep(p0: int, command: int, stream: seq<int>, t: seq<int>, k: nat)
    requires Follows(p0, command, stream, t) && k < |t|
    ensures 0 <= CapturesBefore(k, |t|) <= 1 + |stream|
    ensures IsCapture(p0, t, k) ==>
              && CapturesBefore(k + 1, |t|) == CapturesBefore(k, |t|) + 1
              && CapturesBefore(k, |t|) < 1 + |stream|
              && Mosi(t[k]) == ([command] + Levels(stream))[CapturesBefore(k, |t|)]
    ensures !IsCapture(p0, t, k) ==> CapturesBefore(k + 1, |t|) == CapturesBefore(k, |t|)
  {
    StepCaptures(p0, command, stream, t, k);
    FollowsAt(p0, command, stream, t, k);
    CapturesCount(Mosi(p0), command, stream, k);
  }

  /** The capture count in index terms: it stays within the command bit and the
      stream, grows by one exactly on a capture step, and the capture step with
      count c carries level c of the command-and-stream sequence. */
  lemma CapturesCount(m0: int, command: int, stream: seq<int>, k: nat)
    requires k < FrameLength(|stream|)
    ensures var len := FrameLength(|stream|);
            var c := CapturesBefore(k, len);
            && 0 <= c <= 1 + |stream|
            && (2 <= k && k + 2 < len && k % 2 == 0 ==>
                  && CapturesBefore(k + 1, len) == c + 1
                  && c < 1 + |stream|
                  && MosiAt(m0, command, stream, k) == ([command] + Levels(stream))[c])
            && (!(2 <= k && k + 2 < len && k % 2 == 0) ==> CapturesBefore(k + 1, len) == c)
  {
    if 2 < k && k % 2 == 0 {
      assert (k - 3) / 2 == (k - 1) / 2 - 1;
    }
  }

  lemma CapturedGrows(p0: int, t: seq<int>, n: nat, full: seq<int>, c: nat)
    requires 0 < n <= |t| && c < |full|
    requires Captured(p0, t, n - 1) == full[..c]
    requires IsCapture(p0, t, n - 1) && Mosi(t[n - 1]) == full[c]
    ensures Captured(p0, t, n) == full[..c + 1]
  {
    assert full[..c + 1] == full[..c] + [full[c]];
  }

  lemma CapturedStays(p0: int, t: seq<int>, n: nat, full: seq<int>, c: nat)
    requires 0 < n <= |t| && c <= |full|
    requires Captured(p0, t, n - 1) == full[..c]
    requires !IsCapture(p0, t, n - 1)
    ensures Captured(p0, t, n) == full[..c]
  {
  }

  lemma CapturedSoFar(p0: int, command: int, stream: seq<int>, t: seq<int>, n: nat)
    requires Follows(p0, command, stream, t) && n <= |t|
    ensures 0 <= CapturesBefore(n, |t|) <= 1 + |stream|
    ensures Captured(p0, t, n) == ([command] + Levels(stream))[..CapturesBefore(n, |t|)]
  {
    var i := 0;
    while i < n
      invariant i <= n
      invariant 0 <= CapturesBefore(i, |t|) <= 1 + |stream|
      invariant Captured(p0, t, i) == ([command] + Levels(stream))[..CapturesBefore(i, |t|)]
    {
      CapturedNext(p0, command, stream, t, i + 1);
      i := i + 1;
    }
  }

  lemma CapturedNext(p0: int, command: int, stream: seq<int>, t: seq<int>, n: nat)
    requires Follows(p0, command, stream, t) && 0 < n <= |t|
    requires 0 <= CapturesBefore(n - 1, |t|) <= 1 + |stream|
    requires Captured(p0, t, n - 1) == ([command] + Levels(stream))[..CapturesBefore(n - 1, |t|)]
    ensures 0 <= CapturesBefore(n, |t|) <= 1 + |stream|
    ensures Captured(p0, t, n) == ([command] + Levels(stream))[..CapturesBefore(n, |t|)]
  {
    var k := n - 1;
    var full := [command] + Levels(stream);
    var c := CapturesBefore(k, |t|);
    CaptureStep(p0, command, stream, t, k);
    if IsCapture(p0, t, k) {
      CapturedGrows(p0, t, n, full, c);
    } else {
      CapturedStays(p0, t, n, full, c);
    }
  }

  /** What a clock-phase-0 receiver captures from a frame, whatever SCLK's idle
      level: the command bit, then every stream bit, in order, and nothing else. */
  lemma FollowsCaptured(p0: int, command: int, stream: seq<int>, t: seq<int>)
    requires Follows(p0, command, stream, t)
    ensures Captured(p0, t, |t|) == [command] + Levels(stream)
  {
    CapturedSoFar(p0, command, stream, t, |t|);
    var full := [command] + Levels(stream);
    assert full[..|full|] == full;
  }
}
