/**
 * The per-face arithmetic that both frame handlers share word for word:
 * the mean mouth height over landmarks 13-20, the lip velocity against the
 * stored mouth height, the volume of the analyser's byte spectrum, and the
 * centre bias of the nose tip (used only by the frontend handler).
 * Browser floating point is modelled by `real`.
 */
module Measures {

  /** A normalised face-mesh landmark; only `x` and `y` are read. */
  datatype Point = Point(x: real, y: real)

  /** One frequency bin as `getByteFrequencyData` writes it into a `Uint8Array`. */
  type Byte = b: int | 0 <= b < 256

  /** What the handlers remember per face index between frames. */
  datatype Entry = Entry(mouthY: real, score: real)

  /** The `prevScores` object, keyed by face index. */
  type History = map<nat, Entry>

  /** Index of the nose-tip landmark, read for the centre bias. */
  const NoseTip: nat := 0
  /** The mouth points are landmarks MouthFirst .. MouthEnd - 1. */
  const MouthFirst: nat := 13
  const MouthEnd: nat := 21
  const MouthPoints: real := 8.0
  /** The fixed frame rate the velocity is scaled by. */
  const FrameRate: real := 60.0
  const MaxByte: int := 255

  /** A landmark list the handlers can index: it reaches landmark 20. */
  predicate IsFace(lm: seq<Point>)
  {
    |lm| >= MouthEnd
  }

  function Abs(r: real): real
  {
    if r < 0.0 then -r else r
  }

  /** Sum of the y coordinates of landmarks lo .. hi - 1. */
  function SumY(lm: seq<Point>, lo: nat, hi: nat): real
    requires lo <= hi <= |lm|
    decreases hi - lo
  {
    if lo == hi then 0.0 else lm[lo].y + SumY(lm, lo + 1, hi)
  }

  /** Mean y of the eight mouth landmarks. */
  function MouthY(lm: seq<Point>): real
    requires IsFace(lm)
  {
    SumY(lm, MouthFirst, MouthEnd) / MouthPoints
  }

  lemma {:induction false} SumYWithin(lm: seq<Point>, lo: nat, hi: nat, low: real, high: real)
    requires lo <= hi <= |lm|
    requires forall k | lo <= k < hi :: low <= lm[k].y <= high
    ensures (hi - lo) as real * low <= SumY(lm, lo, hi) <= (hi - lo) as real * high
    decreases hi - lo
  {
    if lo < hi {
      SumYWithin(lm, lo + 1, hi, low, high);
      var n := (hi - (lo + 1)) as real;
      assert (hi - lo) as real * low == low + n * low;
      assert (hi - lo) as real * high == high + n * high;
    }
  }

  lemma {:induction false} SumYLocal(a: seq<Point>, b: seq<Point>, lo: nat, hi: nat)
    requires lo <= hi <= |a| && hi <= |b|
    requires forall k | lo <= k < hi :: a[k].y == b[k].y
    ensures SumY(a, lo, hi) == SumY(b, lo, hi)
    decreases hi - lo
  {
    if lo < hi {
      SumYLocal(a, b, lo + 1, hi);
    }
  }

  /** The mouth height is a mean: it lies within any bounds of the eight mouth points. */
  lemma MouthYWithin(lm: seq<Point>, low: real, high: real)
    requires IsFace(lm)
    requires forall k | MouthFirst <= k < MouthEnd :: low <= lm[k].y <= high
    ensures low <= MouthY(lm) <= high
  {
    SumYWithin(lm, MouthFirst, MouthEnd, low, high);
  }

  /** The mouth height depends on the y coordinates of landmarks 13-20 only. */
  lemma MouthYLocal(a: seq<Point>, b: seq<Point>)
    requires IsFace(a) && IsFace(b)
    requires forall k | MouthFirst <= k < MouthEnd :: a[k].y == b[k].y
    ensures MouthY(a) == MouthY(b)
  {
    SumYLocal(a, b, MouthFirst, MouthEnd);
  }

  /**
   * The stored mouth height, or the current one when there is none; a stored
   * height of exactly 0 is falsy for `||` and is treated as absent too.
   */
  function PreviousMouthY(h: History, i: nat, current: real): real
  {
    if i in h && h[i].mouthY != 0.0 then h[i].mouthY else current
  }

  /** Absolute change of the mouth height, scaled by the fixed frame rate. */
  function LipVelocity(h: History, i: nat, current: real): (v: real)
    ensures v >= 0.0
    ensures v == 0.0 <==> (i !in h || h[i].mouthY == 0.0 || h[i].mouthY == current)
  {
    Abs(current - PreviousMouthY(h, i, current)) * FrameRate
  }

  function Sum(bins: seq<Byte>): int
  {
    if |bins| == 0 then 0 else Sum(bins[..|bins| - 1]) + bins[|bins| - 1]
  }

  lemma {:induction false} SumRange(bins: seq<Byte>)
    ensures 0 <= Sum(bins) <= MaxByte * |bins|
    ensures Sum(bins) == 0 <==> forall k | 0 <= k < |bins| :: bins[k] == 0
    ensures Sum(bins) == MaxByte * |bins| <==> forall k | 0 <= k < |bins| :: bins[k] == MaxByte
  {
    if |bins| > 0 {
      var n := |bins| - 1;
      SumRange(bins[..n]);
      assert forall k | 0 <= k < n :: bins[..n][k] == bins[k];
    }
  }

  lemma MeanRange(total: int, n: nat)
    requires n > 0 && 0 <= total <= MaxByte * n
    ensures var v := total as real / n as real / MaxByte as real;
            && 0.0 <= v <= 1.0
            && (v == 0.0 <==> total == 0)
            && (v == 1.0 <==> total == MaxByte * n)
  {
    var mean := total as real / n as real;
    assert mean * n as real == total as real;
    assert (MaxByte * n) as real == MaxByte as real * n as real;
    assert 0.0 <= mean <= MaxByte as real;
  }

  /** Mean bin value scaled to the unit interval. */
  function Volume(bins: seq<Byte>): (v: real)
    requires |bins| > 0
    ensures 0.0 <= v <= 1.0
    ensures v == 0.0 <==> forall k | 0 <= k < |bins| :: bins[k] == 0
    ensures v == 1.0 <==> forall k | 0 <= k < |bins| :: bins[k] == MaxByte
  {
    SumRange(bins);
    MeanRange(Sum(bins), |bins|);
    Sum(bins) as real / |bins| as real / MaxByte as real
  }

  /** 1 at the horizontal centre of the frame, falling by 2 per unit of distance; not clamped. */
  function CenterBias(noseX: real): (b: real)
    ensures b <= 1.0
    ensures b == 1.0 <==> noseX == 0.5
    ensures b >= 0.0 <==> 0.0 <= noseX <= 1.0
    ensures b == 0.0 <==> (noseX == 0.0 || noseX == 1.0)
  {
    1.0 - Abs(noseX - 0.5) * 2.0
  }

  /** A nose tip nearer the centre never gets a smaller bias, and a strictly nearer one a strictly larger bias. */
  lemma CenterBiasOrder(x: real, y: real)
    ensures CenterBias(x) <= CenterBias(y) <==> Abs(y - 0.5) <= Abs(x - 0.5)
    ensures CenterBias(x) < CenterBias(y) <==> Abs(y - 0.5) < Abs(x - 0.5)
  {
  }

  lemma CenterBiasSymmetric(d: real)
    ensures CenterBias(0.5 + d) == CenterBias(0.5 - d)
  {
  }
}
