/** Mapping a continuous, looping animation time to one of the stored frames, in exact
    real arithmetic. */
module FrameTiming {

  /** A duration below this value counts as unset, and setting one is refused. */
  const Epsilon: real := 0.000001

  /** Real division undoes multiplication by a nonzero divisor. */
  lemma DivTimes(x: real, y: real)
    requires y != 0.0
    ensures (x / y) * y == x
  {
  }

  /** fmod for a non-negative dividend and a positive divisor: what is left of x after
      taking away the largest whole multiple of y that fits in it. */
  function FMod(x: real, y: real): (r: real)
    requires x >= 0.0 && y > 0.0
    ensures 0.0 <= r < y
  {
    FloorDivBounds(x, y);
    x - (x / y).Floor as real * y
  }

  /** The whole multiple of y that FMod takes away fits below x, and one more does not. */
  lemma FloorDivBounds(x: real, y: real)
    requires x >= 0.0 && y > 0.0
    ensures (x / y).Floor as real * y <= x < (x / y).Floor as real * y + y
  {
    var a := x / y;
    var qr := a.Floor as real;
    DivTimes(x, y);
    assert a * y == x;
    MulLess(a, qr + 1.0, y);
    assert a * y < (qr + 1.0) * y;
    assert (qr + 1.0) * y == qr * y + y;
    assert x < qr * y + y;
    if qr < a {
      MulLess(qr, a, y);
    }
    assert qr * y <= x;
  }

  /** Multiplying by a positive factor keeps a strict order. */
  lemma MulLess(a: real, b: real, y: real)
    requires a < b && y > 0.0
    ensures a * y < b * y
  {
    assert b * y - a * y == (b - a) * y;
  }

  /** A whole multiple k * y of a positive y is at least y when k >= 1 and at most -y
      when k <= -1. */
  lemma ScaleAwayFromZero(k: int, y: real)
    requires y > 0.0
    ensures k >= 1 ==> k as real * y >= y
    ensures k <= -1 ==> k as real * y <= -y
  {
    if k >= 1 {
      assert k as real * y == (k as real - 1.0) * y + y;
    } else if k <= -1 {
      assert k as real * y == (k as real + 1.0) * y - y;
    }
  }

  /** The only whole multiple of a positive y strictly between -y and y is zero. */
  lemma WholeMultipleInBand(d: int, y: real, p: real)
    requires y > 0.0 && p == d as real * y && -y < p < y
    ensures d == 0
  {
    ScaleAwayFromZero(d, y);
  }

  /** Two splits of one value into whole multiples of y and rests in [0, y) have the same rest. */
  lemma SplitsAgree(n: int, q: int, r: real, r0: real, y: real)
    requires y > 0.0 && 0.0 <= r < y && 0.0 <= r0 < y
    requires n as real * y + r == q as real * y + r0
    ensures r == r0
  {
    var d := n - q;
    var p := d as real * y;
    assert p == n as real * y - q as real * y;
    WholeMultipleInBand(d, y, p);
  }

  /** Any split of x into a whole multiple of y and a rest in [0, y) has FMod as its rest. */
  lemma FModUnique(x: real, y: real, n: int, r: real)
    requires x >= 0.0 && y > 0.0
    requires x == n as real * y + r && 0.0 <= r < y
    ensures FMod(x, y) == r
  {
    var q := (x / y).Floor;
    var r0 := FMod(x, y);
    assert x == q as real * y + r0;
    SplitsAgree(n, q, r, r0, y);
  }

  /** Adding one period to the dividend leaves the remainder unchanged. */
  lemma FModPeriodic(x: real, y: real)
    requires x >= 0.0 && y > 0.0
    ensures FMod(x + y, y) == FMod(x, y)
  {
    var q := (x / y).Floor;
    var r := FMod(x, y);
    assert x + y == (q + 1) as real * y + r;
    FModUnique(x + y, y, q + 1, r);
  }

  /** The wrapped time scaled by the time factor: the frame position before rounding. */
  function Scaled(t: real, timeFactor: real): (r: real)
    requires t >= 0.0 && timeFactor >= 0.0
    ensures r >= 0.0
  {
    t * timeFactor
  }

  /** The frame shown at `time`: frame 0 while the duration is unset, otherwise the frame
      the wrapped time falls in, reduced modulo numFrames against rounding. */
  function FrameId(time: real, duration: real, timeFactor: real, numFrames: nat): (r: nat)
    requires time >= 0.0 && timeFactor >= 0.0
    requires duration >= Epsilon ==> numFrames > 0
    ensures duration < Epsilon ==> r == 0
    ensures duration >= Epsilon ==> r < numFrames
  {
    if duration < Epsilon then 0
    else Scaled(FMod(time, duration), timeFactor).Floor % numFrames
  }

  /** Once the duration is set the frame index is periodic in time, with the duration
      as its period. */
  lemma FrameIdPeriodic(time: real, duration: real, timeFactor: real, numFrames: nat)
    requires time >= 0.0 && timeFactor >= 0.0 && duration >= Epsilon && numFrames > 0
    ensures FrameId(time + duration, duration, timeFactor, numFrames) == FrameId(time, duration, timeFactor, numFrames)
  {
    FModPeriodic(time, duration);
  }

  /** With timeFactor = numFrames / duration the scaled position is already below
      numFrames, so in exact arithmetic the final modulo never changes the frame. */
  lemma FrameIdWithoutWrap(time: real, duration: real, numFrames: nat)
    requires time >= 0.0 && duration >= Epsilon && numFrames > 0
    ensures FrameId(time, duration, numFrames as real / duration, numFrames) ==
      Scaled(FMod(time, duration), numFrames as real / duration).Floor
  {
    var t := FMod(time, duration);
    var tf := numFrames as real / duration;
    var x := Scaled(t, tf);
    DivTimes(numFrames as real, duration);
    assert duration * tf == numFrames as real;
    MulLess(t, duration, tf);
    assert x < numFrames as real;
    var k := x.Floor;
    assert 0 <= k < numFrames;
    assert k % numFrames == k;
  }

  /** Four frames over two seconds: a time factor of 2, and times that wrap. */
  lemma FrameIdExample()
    ensures FrameId(0.5, 2.0, 2.0, 4) == 1
    ensures FrameId(2.5, 2.0, 2.0, 4) == 1
    ensures FrameId(1.999, 2.0, 2.0, 4) == 3
  {
  }
}
