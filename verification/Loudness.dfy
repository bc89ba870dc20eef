/** `normalize_wav_rms` on one block of samples, over exact reals.

    `rms` stands for the square root NumPy takes; the results that need it say so by
    requiring that its square is the mean square of the block. */
module Loudness {

  const INT16_MAX: int := 32767
  const SILENCE: real := 0.000000001

  function Abs(x: real): real {
    if x < 0.0 then -x else x
  }

  /** `astype(dtype)` on a float: truncation toward zero. */
  function Truncate(x: real): int {
    if x >= 0.0 then x.Floor else -((-x).Floor)
  }

  /** `np.clip(x, -1.0, 1.0)` */
  function Clip(x: real): real {
    if x < -1.0 then -1.0 else if x > 1.0 then 1.0 else x
  }

  /** `float_audio * (target_rms / rms)` for one sample. */
  function Amplified(x: int, scale: int, gain: real): real
    requires scale > 0
  {
    x as real / scale as real * gain
  }

  /** `np.clip(u, -1.0, 1.0) * scale` */
  function AtFullScale(u: real, scale: real): real {
    Clip(u) * scale
  }

  /** One sample through `normalized = clip(x / scale * gain)` and `(normalized * scale).astype(dtype)`. */
  function Rescale(x: int, scale: int, gain: real): int
    requires scale > 0
  {
    Truncate(AtFullScale(Amplified(x, scale, gain), scale as real))
  }

  function RescaleAll(samples: seq<int>, scale: int, gain: real): (r: seq<int>)
    requires scale > 0
    ensures |r| == |samples|
  {
    if samples == [] then [] else [Rescale(samples[0], scale, gain)] + RescaleAll(samples[1..], scale, gain)
  }

  /** Sum of squares of the samples as integers. */
  function Energy(samples: seq<int>): int {
    if samples == [] then 0 else samples[0] * samples[0] + Energy(samples[1..])
  }

  /** `np.mean(np.square(samples / scale))` */
  function MeanSquare(samples: seq<int>, scale: int): real
    requires samples != [] && scale > 0
  {
    Energy(samples) as real / (|samples| as real * (scale as real * scale as real))
  }

  /** The sample block after normalisation to amplitude `target`, given the block's RMS. */
  function Normalized(samples: seq<int>, scale: int, target: real, rms: real): (r: seq<int>)
    requires scale > 0
    ensures |r| == |samples|
  {
    if samples == [] || rms <= SILENCE then samples
    else RescaleAll(samples, scale, target / rms)
  }

  // ---------------------------------------------------------------- one sample

  lemma TruncateSpec(x: real)
    ensures Abs(Truncate(x) as real) <= Abs(x) < Abs(Truncate(x) as real) + 1.0
    ensures x >= 0.0 ==> Truncate(x) >= 0
    ensures x <= 0.0 ==> Truncate(x) <= 0
    ensures Truncate(-x) == -Truncate(x)
  { }

  lemma TruncateMonotone(x: real, y: real)
    requires x <= y
    ensures Truncate(x) <= Truncate(y)
  { }

  lemma ScaleStrict(a: real, b: real, s: real)
    requires a < b && s > 0.0
    ensures a * s < b * s
  {
    assert (b - a) * s > 0.0;
  }

  lemma ScaleWeak(a: real, b: real, s: real)
    requires a <= b && s >= 0.0
    ensures a * s <= b * s
  {
    assert (b - a) * s >= 0.0;
  }

  /** A sample times the gain, in sample units, before anything is cut off. */
  function Scaled(x: int, gain: real): real {
    gain * x as real
  }

  /** `y` cut off at full scale `s`. */
  function Clamp(y: real, s: real): real {
    if y < -s then -s else if y > s then s else y
  }

  lemma ClipIsClamp(u: real, s: real, y: real)
    requires s > 0.0 && y == u * s
    ensures AtFullScale(u, s) == Clamp(y, s)
  {
    if u < -1.0 {
      ScaleStrict(u, -1.0, s);
    } else if u > 1.0 {
      ScaleStrict(1.0, u, s);
    } else {
      ScaleWeak(-1.0, u, s);
      ScaleWeak(u, 1.0, s);
    }
  }

  lemma UnitsCancel(x: int, scale: int, gain: real)
    requires scale > 0
    ensures Scaled(x, gain) == Amplified(x, scale, gain) * scale as real
  {
    var s := scale as real;
    var q := x as real / s;
    assert q * s == x as real;
    assert q * gain * s == gain * (q * s);
  }

  /** The whole sample map is: scale, cut off at full scale, truncate. */
  lemma RescaleIs(x: int, scale: int, gain: real)
    requires scale > 0
    ensures Rescale(x, scale, gain) == Truncate(Clamp(Scaled(x, gain), scale as real))
  {
    hide AtFullScale, Clamp, Truncate, Scaled, Amplified;
    UnitsCancel(x, scale, gain);
    ClipIsClamp(Amplified(x, scale, gain), scale as real, Scaled(x, gain));
  }

  lemma ClampTruncate(y: real, s: int)
    requires s > 0
    ensures var out := Truncate(Clamp(y, s as real));
      && -s <= out <= s
      && Abs(out as real) <= Abs(y)
      && (Abs(y) <= s as real ==> Abs(y) < Abs(out as real) + 1.0)
      && Truncate(Clamp(-y, s as real)) == -out
  {
    TruncateSpec(Clamp(y, s as real));
  }

  /** Output samples stay in range, and a scaled sample is only ever shrunk toward zero. */
  lemma RescaleRange(x: int, scale: int, gain: real)
    requires scale > 0
    ensures -scale <= Rescale(x, scale, gain) <= scale
    ensures Abs(Rescale(x, scale, gain) as real) <= Abs(Scaled(x, gain))
  {
    RescaleIs(x, scale, gain);
    ClampTruncate(Scaled(x, gain), scale);
  }

  lemma ClampTruncateMonotone(y: real, z: real, s: int)
    requires s > 0 && y <= z
    ensures Truncate(Clamp(y, s as real)) <= Truncate(Clamp(z, s as real))
  {
    TruncateMonotone(Clamp(y, s as real), Clamp(z, s as real));
  }

  lemma GainMonotone(x: int, y: int, gain: real)
    requires gain >= 0.0 && x <= y
    ensures Scaled(x, gain) <= Scaled(y, gain)
  {
    ScaleWeak(x as real, y as real, gain);
  }

  lemma GainOdd(x: int, gain: real)
    ensures Scaled(-x, gain) == -(Scaled(x, gain))
  { }

  /** The sample map is monotone. */
  lemma RescaleMonotone(x: int, y: int, scale: int, gain: real)
    requires scale > 0 && gain >= 0.0 && x <= y
    ensures Rescale(x, scale, gain) <= Rescale(y, scale, gain)
  {
    hide *;
    RescaleIs(x, scale, gain);
    RescaleIs(y, scale, gain);
    GainMonotone(x, y, gain);
    ClampTruncateMonotone(Scaled(x, gain), Scaled(y, gain), scale);
  }

  /** The sample map is odd. */
  lemma RescaleOdd(x: int, scale: int, gain: real)
    requires scale > 0
    ensures Rescale(-x, scale, gain) == -Rescale(x, scale, gain)
  {
    hide *;
    RescaleIs(x, scale, gain);
    RescaleIs(-x, scale, gain);
    GainOdd(x, gain);
    ClampTruncate(Scaled(x, gain), scale);
  }

  /** `out` is `x` times the gain, cut off at full scale, less its fraction. */
  predicate NearClamped(out: int, x: int, gain: real, full: int) {
    var y := gain * x as real;
    var c := if y < -(full as real) then -(full as real) else if y > full as real then full as real else y;
    && (c >= 0.0 ==> out >= 0 && out as real <= c < out as real + 1.0)
    && (c <= 0.0 ==> out <= 0 && out as real - 1.0 < c <= out as real)
  }

  /** Each output sample is the amplified one, cut off at full scale and truncated. */
  lemma RescaleIsNear(x: int, scale: int, gain: real)
    requires scale > 0
    ensures NearClamped(Rescale(x, scale, gain), x, gain, scale)
  {
    hide Rescale, NearClamped;
    RescaleIs(x, scale, gain);
    TruncateIsNear(x, scale, gain);
  }

  lemma TruncateIsNear(x: int, scale: int, gain: real)
    requires scale > 0
    ensures NearClamped(Truncate(Clamp(Scaled(x, gain), scale as real)), x, gain, scale)
  { }

  lemma SquareOfAbs(a: real)
    ensures Abs(a) * Abs(a) == a * a
  { }

  lemma SquareMonotone(p: real, q: real)
    requires 0.0 <= p <= q
    ensures p * p <= q * q
  {
    ScaleWeak(p, q, p);
    ScaleWeak(p, q, q);
  }

  lemma SquareLoss(p: real, q: real)
    requires 0.0 <= p <= q < p + 1.0
    ensures p * p >= q * q - 2.0 * q
  {
    var d := q - p;
    ScaleWeak(d, 1.0, p);
    ScaleWeak(d, 1.0, d);
    assert d * p <= 1.0 * p && d * d <= 1.0 * d;
    assert q * q == p * p + 2.0 * (d * p) + d * d;
  }

  predicate Clips(x: int, scale: int, gain: real) {
    Abs(Scaled(x, gain)) > scale as real
  }

  /** A scaled sample cut off at full scale. */
  function Clamped(x: int, scale: int, gain: real): real {
    Clamp(Scaled(x, gain), scale as real)
  }

  /** What one output sample keeps of the square of the clamped one. */
  predicate Tame(out: int, c: real) {
    c * c - 2.0 * Abs(c) <= (out * out) as real <= c * c
  }

  lemma SquareBand(p: real, q: real)
    requires 0.0 <= p <= q < p + 1.0
    ensures q * q - 2.0 * q <= p * p <= q * q
  {
    SquareMonotone(p, q);
    SquareLoss(p, q);
  }

  lemma SquareOfInt(out: int)
    ensures (out * out) as real == Abs(out as real) * Abs(out as real)
  { }

  lemma AbsTruncate(c: real)
    ensures 0.0 <= Abs(Truncate(c) as real) <= Abs(c) < Abs(Truncate(c) as real) + 1.0
  {
    TruncateSpec(c);
  }

  lemma TruncateIsTame(c: real)
    ensures Tame(Truncate(c), c)
  {
    hide Truncate, Abs;
    var out := Truncate(c);
    AbsTruncate(c);
    SquareBand(Abs(out as real), Abs(c));
    SquareOfInt(out);
    SquareOfAbs(c);
  }

  lemma RescaleIsTame(x: int, scale: int, gain: real)
    requires scale > 0
    ensures Tame(Rescale(x, scale, gain), Clamped(x, scale, gain))
  {
    hide Scaled, Rescale, Tame, Clamp, Truncate;
    RescaleIs(x, scale, gain);
    TruncateIsTame(Clamped(x, scale, gain));
  }

  /** The energy one sample loses to clipping. */
  function LossOf(x: int, scale: int, gain: real): real {
    if Clips(x, scale, gain) then Scaled(x, gain) * Scaled(x, gain) - scale as real * scale as real else 0.0
  }

  lemma ClampLoses(x: int, scale: int, gain: real)
    requires scale > 0
    ensures Clamped(x, scale, gain) * Clamped(x, scale, gain)
         == Scaled(x, gain) * Scaled(x, gain) - LossOf(x, scale, gain)
    ensures Abs(Clamped(x, scale, gain)) <= Abs(Scaled(x, gain))
    ensures LossOf(x, scale, gain) >= 0.0 && (LossOf(x, scale, gain) > 0.0 <==> Clips(x, scale, gain))
  {
    var y, s := Scaled(x, gain), scale as real;
    hide Scaled;
    SquareOfAbs(y);
    if Clips(x, scale, gain) {
      ScaleStrict(s, Abs(y), s);
      ScaleStrict(s, Abs(y), Abs(y));
      assert (-s) * (-s) == s * s;
    }
  }

  // ---------------------------------------------------------------- whole blocks

  /** Energy and absolute sum of the scaled, not yet clipped, samples. */
  function ScaledEnergy(samples: seq<int>, gain: real): real {
    if samples == [] then 0.0
    else (Scaled(samples[0], gain)) * (Scaled(samples[0], gain)) + ScaledEnergy(samples[1..], gain)
  }

  function ScaledAbsSum(samples: seq<int>, gain: real): real {
    if samples == [] then 0.0 else Abs(Scaled(samples[0], gain)) + ScaledAbsSum(samples[1..], gain)
  }

  lemma {:induction false} ScaledEnergyIs(samples: seq<int>, gain: real)
    ensures ScaledEnergy(samples, gain) == gain * gain * Energy(samples) as real
  {
    if samples != [] {
      var x, rest := samples[0] as real, Energy(samples[1..]) as real;
      ScaledEnergyIs(samples[1..], gain);
      assert (gain * x) * (gain * x) == (gain * gain) * (x * x);
      assert (samples[0] * samples[0]) as real == x * x;
      assert Energy(samples) as real == x * x + rest;
      assert (gain * gain) * (x * x + rest) == (gain * gain) * (x * x) + (gain * gain) * rest;
    }
  }

  /** Energy and absolute sum of the clamped samples, and what clipping took from the energy. */
  function ClampedEnergy(samples: seq<int>, scale: int, gain: real): real {
    if samples == [] then 0.0
    else Clamped(samples[0], scale, gain) * Clamped(samples[0], scale, gain) + ClampedEnergy(samples[1..], scale, gain)
  }

  function ClampedAbsSum(samples: seq<int>, scale: int, gain: real): real {
    if samples == [] then 0.0 else Abs(Clamped(samples[0], scale, gain)) + ClampedAbsSum(samples[1..], scale, gain)
  }

  function ClipLoss(samples: seq<int>, scale: int, gain: real): real {
    if samples == [] then 0.0 else LossOf(samples[0], scale, gain) + ClipLoss(samples[1..], scale, gain)
  }

  predicate AnyClips(samples: seq<int>, scale: int, gain: real) {
    exists i :: 0 <= i < |samples| && Clips(samples[i], scale, gain)
  }

  lemma {:induction false} ClampedIs(samples: seq<int>, scale: int, gain: real)
    requires scale > 0
    ensures ClampedEnergy(samples, scale, gain) == ScaledEnergy(samples, gain) - ClipLoss(samples, scale, gain)
    ensures ClampedAbsSum(samples, scale, gain) <= ScaledAbsSum(samples, gain)
  {
    hide Clamped, Scaled, LossOf;
    if samples != [] {
      ClampLoses(samples[0], scale, gain);
      ClampedIs(samples[1..], scale, gain);
    }
  }

  /** Clipping costs energy exactly when some sample clips. */
  lemma {:induction false} LossIffClips(samples: seq<int>, scale: int, gain: real)
    requires scale > 0
    ensures ClipLoss(samples, scale, gain) >= 0.0
    ensures ClipLoss(samples, scale, gain) > 0.0 <==> AnyClips(samples, scale, gain)
  {
    hide Clips, LossOf;
    if samples != [] {
      ClampLoses(samples[0], scale, gain);
      LossIffClips(samples[1..], scale, gain);
      if i :| 0 <= i < |samples[1..]| && Clips(samples[1..][i], scale, gain) {
        assert Clips(samples[i + 1], scale, gain);
      }
      assert forall i | 1 <= i < |samples| :: samples[i] == samples[1..][i - 1];
    }
  }

  /** Summing the per-sample bounds; `out` is any block that keeps them. */
  lemma {:induction false} EnergyBounds(samples: seq<int>, out: seq<int>, scale: int, gain: real)
    requires |out| == |samples|
    requires forall i | 0 <= i < |samples| :: Tame(out[i], Clamped(samples[i], scale, gain))
    ensures var c, a := ClampedEnergy(samples, scale, gain), ClampedAbsSum(samples, scale, gain);
      c - 2.0 * a <= Energy(out) as real <= c
  {
    hide Clamped;
    if samples != [] {
      EnergyBounds(samples[1..], out[1..], scale, gain);
      assert Tame(out[0], Clamped(samples[0], scale, gain));
      assert Energy(out) as real == (out[0] * out[0]) as real + Energy(out[1..]) as real;
    }
  }

  /** The Cauchy-Schwarz step: a block of `n` values whose squares sum to `n * t * t` has
      absolute sum at most `n * t`. */
  lemma {:induction false} SpreadIsNonNegative(samples: seq<int>, gain: real, t: real)
    ensures ScaledEnergy(samples, gain) - 2.0 * t * ScaledAbsSum(samples, gain) + |samples| as real * (t * t) >= 0.0
  {
    if samples != [] {
      var a := Abs(Scaled(samples[0], gain));
      var rest := ScaledAbsSum(samples[1..], gain);
      SpreadIsNonNegative(samples[1..], gain, t);
      assert (Scaled(samples[0], gain)) * (Scaled(samples[0], gain)) == a * a;
      assert a * a - 2.0 * t * a + t * t == (a - t) * (a - t);
      assert (a - t) * (a - t) >= 0.0;
      assert 2.0 * t * (a + rest) == 2.0 * t * a + 2.0 * t * rest;
      assert |samples| as real * (t * t) == |samples[1..]| as real * (t * t) + t * t;
    }
  }

  lemma DivideOut(a: real, n: real, t: real)
    requires t > 0.0 && n * (t * t) - 2.0 * t * a + n * (t * t) >= 0.0
    ensures a <= n * t
  {
    if a > n * t {
      ScaleStrict(n * t, a, 2.0 * t);
    }
  }

  lemma AbsSumBound(samples: seq<int>, gain: real, t: real)
    requires t > 0.0 && ScaledEnergy(samples, gain) == |samples| as real * (t * t)
    ensures ScaledAbsSum(samples, gain) <= |samples| as real * t
  {
    SpreadIsNonNegative(samples, gain, t);
    DivideOut(ScaledAbsSum(samples, gain), |samples| as real, t);
  }

  /** Before clipping, the gain puts the block at exactly the target energy. */
  lemma TargetEnergy(samples: seq<int>, scale: int, target: real, rms: real)
    requires samples != [] && scale > 0 && rms > 0.0 && rms * rms == MeanSquare(samples, scale)
    ensures var t := target * scale as real;
      ScaledEnergy(samples, target / rms) == |samples| as real * (t * t)
  {
    var n, s, e, g := |samples| as real, scale as real, Energy(samples) as real, target / rms;
    ScaledEnergyIs(samples, g);
    var d := n * (s * s);
    ScaleStrict(0.0, s, s);
    ScaleStrict(0.0, s * s, n);
    assert e == (rms * rms) * d by {
      assert e / d * d == e;
    }
    assert g * rms == target;
    assert g * g * e == (g * rms) * (g * rms) * d by {
      assert (g * g) * ((rms * rms) * d) == ((g * g) * (rms * rms)) * d;
      assert (g * g) * (rms * rms) == (g * rms) * (g * rms);
    }
    assert (target * target) * (n * (s * s)) == n * ((target * s) * (target * s));
  }

  lemma {:induction false} AllRescaled(samples: seq<int>, scale: int, gain: real)
    requires scale > 0
    ensures forall i | 0 <= i < |samples| ::
      RescaleAll(samples, scale, gain)[i] == Rescale(samples[i], scale, gain)
      && -scale <= RescaleAll(samples, scale, gain)[i] <= scale
  {
    if samples != [] {
      RescaleRange(samples[0], scale, gain);
      AllRescaled(samples[1..], scale, gain);
    }
  }

  /** The whole block, sample by sample. */
  lemma NormalizedIsNear(samples: seq<int>, scale: int, target: real, rms: real)
    requires samples != [] && scale > 0 && rms > SILENCE
    ensures forall i | 0 <= i < |samples| ::
              NearClamped(Normalized(samples, scale, target, rms)[i], samples[i], target / rms, scale)
  {
    NormalizedIs(samples, scale, target, rms);
    AllRescaled(samples, scale, target / rms);
    hide NearClamped, Rescale, RescaleAll, Normalized;
    forall i | 0 <= i < |samples|
      ensures NearClamped(Normalized(samples, scale, target, rms)[i], samples[i], target / rms, scale)
    {
      RescaleIsNear(samples[i], scale, target / rms);
    }
  }

  /** `e` is the energy of `n` samples of amplitude `t` less `loss`, up to truncation. */
  predicate InBand(e: real, n: real, t: real, loss: real) {
    n * (t * t) - loss - 2.0 * (n * t) <= e <= n * (t * t) - loss
  }

  /** The bounds for any positive gain that puts the unclipped block at energy `n * t * t`. */
  lemma BlockBounds(samples: seq<int>, scale: int, gain: real, t: real)
    requires scale > 0 && t > 0.0 && ScaledEnergy(samples, gain) == |samples| as real * (t * t)
    ensures InBand(Energy(RescaleAll(samples, scale, gain)) as real, |samples| as real, t,
                   ClipLoss(samples, scale, gain))
  {
    hide Scaled, Rescale, RescaleAll, Tame, Clamped, Energy, ScaledEnergy, ScaledAbsSum;
    var out := RescaleAll(samples, scale, gain);
    AllRescaled(samples, scale, gain);
    forall i | 0 <= i < |samples| ensures Tame(out[i], Clamped(samples[i], scale, gain)) {
      RescaleIsTame(samples[i], scale, gain);
    }
    EnergyBounds(samples, out, scale, gain);
    ClampedIs(samples, scale, gain);
    AbsSumBound(samples, gain, t);
  }

  lemma BandMeans(e: real, n: real, t: real, loss: real)
    requires InBand(e, n, t, loss) && loss >= 0.0
    ensures e <= n * (t * t)
    ensures loss == 0.0 ==> e >= n * (t * t) - 2.0 * (n * t)
    ensures loss > 2.0 * (n * t) ==> e < n * (t * t) - 2.0 * (n * t)
  { }

  lemma NormalizedIs(samples: seq<int>, scale: int, target: real, rms: real)
    requires samples != [] && scale > 0 && rms > SILENCE
    ensures Normalized(samples, scale, target, rms) == RescaleAll(samples, scale, target / rms)
  { }

  lemma LoudnessBand(samples: seq<int>, target: real, rms: real)
    requires samples != [] && target > 0.0 && rms > SILENCE && rms * rms == MeanSquare(samples, INT16_MAX)
    ensures var out, loss := Normalized(samples, INT16_MAX, target, rms), ClipLoss(samples, INT16_MAX, target / rms);
      && InBand(Energy(out) as real, |samples| as real, target * INT16_MAX as real, loss)
      && loss >= 0.0 && (loss > 0.0 <==> AnyClips(samples, INT16_MAX, target / rms))
      && forall i | 0 <= i < |out| :: -INT16_MAX <= out[i] <= INT16_MAX
  {
    hide MeanSquare, Normalized, Energy, ClipLoss, AnyClips, InBand, RescaleAll, ScaledEnergy;
    ScaleStrict(0.0, target, INT16_MAX as real);
    TargetEnergy(samples, INT16_MAX, target, rms);
    NormalizedIs(samples, INT16_MAX, target, rms);
    BlockBounds(samples, INT16_MAX, target / rms, target * INT16_MAX as real);
    LossIffClips(samples, INT16_MAX, target / rms);
    AllRescaled(samples, INT16_MAX, target / rms);
  }

  /** The loudness law for 16-bit audio, with `t` the target amplitude in sample units, `n` the
      number of samples and `loss` the energy clipping takes: the output's energy is within
      `2 * n * t` below `n * t * t - loss`. So the mean square never exceeds `t * t`; it is at
      least `t * t - 2 * t` when nothing clips, and below that when `loss > 2 * n * t`. Every
      output sample is within 16-bit range. */
  lemma LoudnessBounds(samples: seq<int>, target: real, rms: real)
    requires samples != [] && target > 0.0 && rms > SILENCE && rms * rms == MeanSquare(samples, INT16_MAX)
    ensures var t, n := target * INT16_MAX as real, |samples| as real;
      var out, loss := Normalized(samples, INT16_MAX, target, rms), ClipLoss(samples, INT16_MAX, target / rms);
      && InBand(Energy(out) as real, n, t, loss)
      && loss >= 0.0 && (loss > 0.0 <==> AnyClips(samples, INT16_MAX, target / rms))
      && Energy(out) as real <= n * (t * t)
      && (!AnyClips(samples, INT16_MAX, target / rms) ==> Energy(out) as real >= n * (t * t) - 2.0 * (n * t))
      && (loss > 2.0 * (n * t) ==> Energy(out) as real < n * (t * t) - 2.0 * (n * t))
      && forall i | 0 <= i < |out| :: -INT16_MAX <= out[i] <= INT16_MAX
  {
    hide MeanSquare, Normalized, Energy, ClipLoss, AnyClips, InBand;
    LoudnessBand(samples, target, rms);
    BandMeans(Energy(Normalized(samples, INT16_MAX, target, rms)) as real, |samples| as real,
              target * INT16_MAX as real, ClipLoss(samples, INT16_MAX, target / rms));
  }

  /** Clipping can push the output below the bound for unclipped blocks: one full-scale sample
      among three silent ones, raised to full loudness, keeps a quarter of the target energy. */
  lemma ClippingLosesEnergy()
    ensures var samples, t, n := [INT16_MAX, 0, 0, 0], 1.0 * INT16_MAX as real, 4.0;
      && 0.5 * 0.5 == MeanSquare(samples, INT16_MAX)
      && AnyClips(samples, INT16_MAX, 1.0 / 0.5)
      && Energy(Normalized(samples, INT16_MAX, 1.0, 0.5)) as real < n * (t * t) - 2.0 * (n * t)
  {
    var samples := [INT16_MAX, 0, 0, 0];
    assert Energy(samples) == INT16_MAX * INT16_MAX by {
      assert samples[1..] == [0, 0, 0] && [0, 0, 0][1..] == [0, 0] && [0, 0][1..] == [0] && [0][1..] == [];
      assert Energy([0]) == 0 && Energy([0, 0]) == 0 && Energy([0, 0, 0]) == 0;
    }
    assert Clips(samples[0], INT16_MAX, 2.0);
    RescaleIs(INT16_MAX, INT16_MAX, 2.0);
    RescaleIs(0, INT16_MAX, 2.0);
    AllRescaled(samples, INT16_MAX, 2.0);
    assert RescaleAll(samples, INT16_MAX, 2.0) == samples;
  }

  /** Clipping alone does not: a square wave raised a hair above full scale clips and still
      meets the bound. */
  lemma ClippingMayBeHarmless()
    ensures var samples, t, n := [INT16_MAX, -INT16_MAX], 1.00001 * INT16_MAX as real, 2.0;
      && 1.0 * 1.0 == MeanSquare(samples, INT16_MAX)
      && AnyClips(samples, INT16_MAX, 1.00001 / 1.0)
      && Energy(Normalized(samples, INT16_MAX, 1.00001, 1.0)) as real >= n * (t * t) - 2.0 * (n * t)
  {
    var samples, gain := [INT16_MAX, -INT16_MAX], 1.00001;
    assert samples[1..] == [-INT16_MAX] && [-INT16_MAX][1..] == [];
    assert Energy([-INT16_MAX]) == INT16_MAX * INT16_MAX;
    assert Energy(samples) == 2 * INT16_MAX * INT16_MAX;
    assert Clips(samples[0], INT16_MAX, gain);
    RescaleIs(INT16_MAX, INT16_MAX, gain);
    RescaleIs(-INT16_MAX, INT16_MAX, gain);
    AllRescaled(samples, INT16_MAX, gain);
    assert RescaleAll(samples, INT16_MAX, gain) == samples;
  }
}
