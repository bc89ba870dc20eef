/** WAV payloads: normalising, concatenating and timing them, and the two ways the service
    delivers them. A WAV is its parameters plus its interleaved samples. */
module Audio {
  import Loudness
  import opened Wrappers

  datatype Params = Params(channels: nat, width: nat, rate: nat, compType: string, compName: string)

  datatype WavData = Wav(params: Params, samples: seq<int>)

  /** What the `wave` module guarantees of anything it has read: uncompressed whole frames.
      The rate may be 0 and the width anything from 1. */
  predicate WholeFrames(w: WavData) {
    && w.params.channels >= 1 && w.params.width >= 1 && w.params.compType == "NONE"
    && |w.samples| % w.params.channels == 0
  }

  type Wav = w: WavData | WholeFrames(w) witness Wav(Params(1, 2, 1, "NONE", ""), [])

  /** What it accepts for writing. */
  predicate Writable(params: Params) {
    params.channels >= 1 && 1 <= params.width <= 4 && params.rate >= 1 && params.compType == "NONE"
  }

  /** A byte string: empty, rejected by the `wave` module, or a readable WAV. */
  datatype Payload = Empty | Malformed | Sound(wav: Wav)

  datatype Error = Unreadable | Unwritable | IncompatibleChunks | ProviderRaised | NoResult | ClientGone

  function FrameCount(w: Wav): nat {
    |w.samples| / w.params.channels
  }

  /** `int(round(num / den))`: to the nearest integer, ties to even. */
  function RoundDiv(num: int, den: int): int
    requires den > 0
  {
    var q, r := num / den, num % den;
    if 2 * r < den then q else if 2 * r > den then q + 1 else if q % 2 == 0 then q else q + 1
  }

  /** `_wav_duration_ms` */
  function DurationMs(p: Payload): int {
    if !p.Sound? || p.wav.params.rate == 0 then 0
    else RoundDiv(FrameCount(p.wav) * 1000, p.wav.params.rate)
  }

  function Scale(width: nat): int {
    if width == 2 then Loudness.INT16_MAX else 2147483647
  }

  /** Sixteen or 32 bit samples, not all but silent. */
  predicate Audible(w: Wav, rms: (seq<int>, int) -> real) {
    (w.params.width == 2 || w.params.width == 4) && w.samples != []
    && rms(w.samples, if w.params.width == 2 then 32767 else 2147483647) > 0.000000001
  }

  /** `out` is `w` brought to amplitude `target`: an audible WAV has every sample amplified, cut
      off at the full scale of its width and truncated; any other is left as it is. */
  ghost predicate Levelled(w: Wav, out: Wav, target: real, rms: (seq<int>, int) -> real) {
    if !Audible(w, rms) then out == w
    else
      var full := if w.params.width == 2 then 32767 else 2147483647;
      && out.params == w.params && |out.samples| == |w.samples|
      && forall i | 0 <= i < |w.samples| ::
           Loudness.NearClamped(out.samples[i], w.samples[i], target / rms(w.samples, full), full)
  }

  /** `normalize_wav_rms`. `rms` gives the RMS of a block at a scale, `target` the amplitude. */
  function Normalize(p: Payload, target: real, rms: (seq<int>, int) -> real): Result<Payload, Error> {
    match p
    case Empty => Ok(p)
    case Malformed => Err(Unreadable)
    case Sound(w) =>
      var scale := Scale(w.params.width);
      if w.params.width != 2 && w.params.width != 4 then Ok(p)
      else if w.samples == [] then Ok(p)
      else if rms(w.samples, scale) <= Loudness.SILENCE then Ok(p)
      else if !Writable(w.params) then Err(Unwritable)
      else Ok(Sound(Wav(w.params, Loudness.Normalized(w.samples, scale, target, rms(w.samples, scale)))))
  }

  /** Normalising fails exactly on audible samples without a frame rate, and otherwise brings
      the WAV to the target amplitude, keeping its parameters and the number of samples. */
  lemma NormalizeLevels(w: Wav, target: real, rms: (seq<int>, int) -> real)
    ensures var n := Normalize(Sound(w), target, rms);
      && (n.Ok? <==> !(Audible(w, rms) && w.params.rate == 0))
      && (n.Err? ==> n.error == Unwritable)
      && (n.Ok? ==> n.value.Sound? && Levelled(w, n.value.wav, target, rms)
                    && n.value.wav.params == w.params && |n.value.wav.samples| == |w.samples|)
  {
    hide Loudness.NearClamped, Loudness.Normalized;
    if Audible(w, rms) {
      var full := Scale(w.params.width);
      Loudness.NormalizedIsNear(w.samples, full, target, rms(w.samples, full));
    }
  }

  /** And what is not a readable WAV: an empty payload passes, any other cannot be read. */
  lemma NormalizeOthers(p: Payload, target: real, rms: (seq<int>, int) -> real)
    requires !p.Sound?
    ensures Normalize(p, target, rms) == if p.Empty? then Ok(Empty) else Err(Unreadable)
  { }

  /** The loudness of what the service delivers: for audible 16-bit audio whose RMS was measured
      exactly, the normalised samples obey the loudness law and stay within range. */
  lemma NormalizedLoudness(w: Wav, target: real, rms: (seq<int>, int) -> real)
    requires Audible(w, rms) && w.params.width == 2 && w.params.rate >= 1 && target > 0.0
    requires var r := rms(w.samples, 32767); r * r == Loudness.MeanSquare(w.samples, 32767)
    ensures var n, t := Normalize(Sound(w), target, rms), target * 32767.0;
      && n.Ok? && n.value.Sound?
      && var out, gain := n.value.wav.samples, target / rms(w.samples, 32767);
         && Loudness.InBand(Loudness.Energy(out) as real, |w.samples| as real, t,
                            Loudness.ClipLoss(w.samples, 32767, gain))
         && forall i | 0 <= i < |out| :: -32767 <= out[i] <= 32767
  {
    hide Loudness.InBand, Loudness.Energy, Loudness.ClipLoss, Loudness.MeanSquare, Loudness.Normalized,
         Loudness.AnyClips;
    Loudness.LoudnessBand(w.samples, target, rms(w.samples, 32767));
  }

  // ---------------------------------------------------------------- concatenation

  /** All payloads are readable and have the parameters of the first. */
  predicate Mergeable(ps: seq<Payload>) {
    forall i | 0 <= i < |ps| :: ps[i].Sound? && ps[0].Sound? && ps[i].wav.params == ps[0].wav.params
  }

  function Own(p: Payload): seq<int> {
    if p.Sound? then p.wav.samples else []
  }

  function AllSamples(ps: seq<Payload>): seq<int> {
    if ps == [] then []
    else AllSamples(ps[..|ps| - 1]) + Own(ps[|ps| - 1])
  }

  lemma {:induction false} AllSamplesWholeFrames(ps: seq<Payload>, params: Params)
    requires params.channels >= 1
    requires forall i | 0 <= i < |ps| :: ps[i].Sound? && ps[i].wav.params == params
    ensures |AllSamples(ps)| % params.channels == 0
    ensures |AllSamples(ps)| / params.channels == TotalFrames(ps)
  {
    if ps != [] {
      var front, w := ps[..|ps| - 1], ps[|ps| - 1].wav;
      AllSamplesWholeFrames(front, params);
      DivideSum(|AllSamples(front)|, |w.samples|, params.channels);
    }
  }

  lemma AllSamplesLast(ps: seq<Payload>)
    requires ps != []
    ensures AllSamples(ps) == AllSamples(ps[..|ps| - 1]) + Own(ps[|ps| - 1])
  { }

  lemma Regroup(a: seq<int>, b: seq<int>, c: seq<int>)
    ensures (a + b) + c == a + (b + c)
  { }

  /** All samples, in order: those of payload `k` stand between those before and after it. */
  lemma {:induction false} SamplesInOrder(ps: seq<Payload>, k: nat)
    requires k < |ps| && ps[k].Sound?
    ensures AllSamples(ps) == AllSamples(ps[..k]) + ps[k].wav.samples + AllSamples(ps[k + 1..])
    decreases |ps|
  {
    var n := |ps| - 1;
    if k == n {
      assert ps[k + 1..] == [];
    } else {
      var front, rest := ps[..n], ps[k + 1..];
      SamplesInOrder(front, k);
      AllSamplesLast(ps);
      AllSamplesLast(rest);
      hide AllSamples, Own;
      assert front[..k] == ps[..k] && front[k + 1..] == rest[..|rest| - 1] && rest[|rest| - 1] == ps[n];
      Regroup(AllSamples(ps[..k]) + ps[k].wav.samples, AllSamples(front[k + 1..]), Own(ps[n]));
    }
  }

  lemma DivideSum(a: nat, b: nat, c: nat)
    requires c >= 1 && a % c == 0 && b % c == 0
    ensures (a + b) % c == 0 && (a + b) / c == a / c + b / c
  {
    assert a + b == c * (a / c + b / c);
    Quotient(c, a / c + b / c, a + b);
  }

  lemma Quotient(c: nat, k: nat, n: nat)
    requires c >= 1 && n == c * k
    ensures n % c == 0 && n / c == k
  {
    var q, r := n / c, n % c;
    assert c * (k - q) == r;
    if k > q {
      Multiple(c, k - q);
    }
  }

  lemma Multiple(c: nat, k: nat)
    requires k >= 1
    ensures c * k >= c
  {
    assert c * (k - 1) >= 0;
  }

  function TotalFrames(ps: seq<Payload>): nat {
    if ps == [] then 0
    else TotalFrames(ps[..|ps| - 1]) + (var p := ps[|ps| - 1]; if p.Sound? then FrameCount(p.wav) else 0)
  }

  /** The error of the first payload that cannot join those before it. */
  function MergeError(ps: seq<Payload>): Error
    requires !Mergeable(ps)
  {
    var front := ps[..|ps| - 1];
    if !Mergeable(front) then MergeError(front)
    else if ps[|ps| - 1].Sound? then IncompatibleChunks else Unreadable
  }

  lemma MergedIsWhole(ps: seq<Payload>)
    requires ps != [] && Mergeable(ps)
    ensures ps[0].Sound? && WholeFrames(Wav(ps[0].wav.params, AllSamples(ps)))
  {
    AllSamplesWholeFrames(ps, ps[0].wav.params);
  }

  /** `_concat_wav_bytes`, as a value. */
  function Merged(ps: seq<Payload>): Result<Payload, Error> {
    if ps == [] then Ok(Empty)
    else if |ps| == 1 then Ok(ps[0])
    else if !Mergeable(ps) then Err(MergeError(ps))
    else if !Writable(ps[0].wav.params) then Err(Unwritable)
    else
      MergedIsWhole(ps);
      Ok(Sound(Wav(ps[0].wav.params, AllSamples(ps))))
  }

  /** When there is a merged payload, in raw terms, and what it is. */
  lemma MergedSpec(ps: seq<Payload>)
    ensures Merged(ps).Ok?
            <==> || |ps| <= 1
                 || (&& (forall i | 0 <= i < |ps| ::
                           ps[i].Sound? && ps[0].Sound? && ps[i].wav.params == ps[0].wav.params)
                     && 1 <= ps[0].wav.params.width <= 4 && ps[0].wav.params.rate >= 1)
    ensures ps == [] ==> Merged(ps) == Ok(Empty)
    ensures |ps| == 1 ==> Merged(ps) == Ok(ps[0])
    ensures |ps| >= 2 && Merged(ps).Ok? ==>
      var p := Merged(ps).value;
      p.Sound? && p.wav.params == ps[0].wav.params && p.wav.samples == AllSamples(ps)
  {
    if |ps| >= 2 && Mergeable(ps) {
      assert ps[0].Sound?;
    }
  }

  lemma {:induction false} FirstErrorDecides(ps: seq<Payload>, n: nat)
    requires n < |ps| && Mergeable(ps[..n]) && !Mergeable(ps[..n + 1])
    ensures !Mergeable(ps)
    ensures MergeError(ps) == if ps[n].Sound? then IncompatibleChunks else Unreadable
    decreases |ps|
  {
    if n + 1 < |ps| {
      var front := ps[..|ps| - 1];
      assert front[..n] == ps[..n] && front[..n + 1] == ps[..n + 1];
      FirstErrorDecides(front, n);
      assert Mergeable(ps) ==> Mergeable(front);
    } else {
      assert ps[..n + 1] == ps && ps[..|ps| - 1] == ps[..n];
    }
  }

  /** `_concat_wav_bytes`: nothing, one payload as it is, or all samples under the common
      parameters. Otherwise the first offending payload decides the error, or the common
      parameters are not writable. */
  method ConcatWavs(parts: seq<Payload>) returns (r: Result<Payload, Error>)
    ensures r == Merged(parts)
  {
    if parts == [] {
      return Ok(Empty);
    }
    if |parts| == 1 {
      return Ok(parts[0]);
    }
    var frames: seq<int> := [];
    var params := Params(0, 0, 0, "", "");
    var first := true;
    for i := 0 to |parts|
      invariant Mergeable(parts[..i]) && frames == AllSamples(parts[..i])
      invariant first <==> i == 0
      invariant !first ==> parts[0].Sound? && params == parts[0].wav.params
    {
      assert parts[..i + 1][..i] == parts[..i];
      assert parts[..i + 1][i] == parts[i];
      if !parts[i].Sound? {
        FirstErrorDecides(parts, i);
        return Err(Unreadable);
      }
      if first {
        params := parts[i].wav.params;
        first := false;
      } else if params != parts[i].wav.params {
        assert parts[..i + 1][0] == parts[0];
        FirstErrorDecides(parts, i);
        return Err(IncompatibleChunks);
      }
      frames := frames + parts[i].wav.samples;
    }
    assert parts[..|parts|] == parts;
    MergedIsWhole(parts);
    if !Writable(params) {
      return Err(Unwritable);
    }
    r := Ok(Sound(Wav(params, frames)));
  }

  // ---------------------------------------------------------------- durations

  function TotalMs(ps: seq<Payload>): int {
    if ps == [] then 0 else TotalMs(ps[..|ps| - 1]) + DurationMs(ps[|ps| - 1])
  }

  /** A duration is the exact one to the nearest millisecond, ties going to the even one;
      payloads without audio or without a rate have none. */
  lemma DurationIsNearest(p: Payload)
    ensures !p.Sound? || p.wav.params.rate == 0 ==> DurationMs(p) == 0
    ensures p.Sound? && p.wav.params.rate >= 1 ==>
      var rate: int, gap := p.wav.params.rate, 2 * (p.wav.params.rate * DurationMs(p)) - 2000 * FrameCount(p.wav);
      -rate <= gap <= rate && (gap == rate || gap == -rate ==> DurationMs(p) % 2 == 0)
    ensures p.Sound? ==> FrameCount(p.wav) * p.wav.params.channels == |p.wav.samples|
  {
    if p.Sound? && p.wav.params.rate >= 1 {
      RoundDivTies(FrameCount(p.wav) * 1000, p.wav.params.rate);
    }
  }

  lemma RoundDivTies(num: int, den: int)
    requires den > 0
    ensures var gap := 2 * (den * RoundDiv(num, den)) - 2 * num;
      -den <= gap <= den && (gap == den || gap == -den ==> RoundDiv(num, den) % 2 == 0)
  {
    var q, r := num / den, num % den;
    assert num == den * q + r;
    assert den * (q + 1) == den * q + den;
  }

  /** Rounding moves a quotient by at most one half. */
  lemma RoundDivError(num: int, den: int)
    requires den > 0
    ensures -den <= 2 * (den * RoundDiv(num, den)) - 2 * num <= den
  {
    var q, r := num / den, num % den;
    assert num == den * q + r;
    assert den * (q + 1) == den * q + den;
  }

  lemma {:induction false} TotalMsError(ps: seq<Payload>, params: Params)
    requires params.rate > 0
    requires forall i | 0 <= i < |ps| :: ps[i].Sound? && ps[i].wav.params == params
    ensures var rate := params.rate;
      -(|ps| * rate) <= 2 * (rate * TotalMs(ps)) - 2000 * TotalFrames(ps) <= |ps| * rate
  {
    if ps != [] {
      var front, last := ps[..|ps| - 1], ps[|ps| - 1];
      var rate := params.rate;
      TotalMsError(front, params);
      RoundDivError(FrameCount(last.wav) * 1000, rate);
      ErrorsAdd(rate, |front|, TotalMs(front), DurationMs(last));
      hide *;
      calc {
        TotalMs(ps);
        { TotalMsLast(ps); }
        TotalMs(front) + DurationMs(last);
      }
      TotalFramesLast(ps);
    }
  }

  lemma ErrorsAdd(rate: int, n: nat, a: int, b: int)
    ensures rate * (a + b) == rate * a + rate * b
    ensures (n + 1) * rate == n * rate + rate
  { }

  lemma TotalMsLast(ps: seq<Payload>)
    requires ps != []
    ensures TotalMs(ps) == TotalMs(ps[..|ps| - 1]) + DurationMs(ps[|ps| - 1])
  { }

  lemma TotalFramesLast(ps: seq<Payload>)
    requires ps != [] && ps[|ps| - 1].Sound?
    ensures TotalFrames(ps) == TotalFrames(ps[..|ps| - 1]) + FrameCount(ps[|ps| - 1].wav)
  { }

  /** Rounding chunk by chunk instead of once changes the duration of `n` merged payloads by
      at most `(n + 1) / 2` milliseconds, and not at all for a single one. */
  lemma DurationsAgree(ps: seq<Payload>)
    requires ps != [] && Merged(ps).Ok?
    ensures var gap := TotalMs(ps) - DurationMs(Merged(ps).value);
      -(|ps| + 1) <= 2 * gap <= |ps| + 1 && (|ps| == 1 ==> gap == 0)
  {
    if |ps| == 1 {
      assert ps[..0] == [];
    } else {
      var params := ps[0].wav.params;
      var rate := params.rate;
      AllSamplesWholeFrames(ps, params);
      TotalMsError(ps, params);
      var whole := DurationMs(Merged(ps).value);
      RoundDivError(TotalFrames(ps) * 1000, rate);
      GapBound(rate, TotalMs(ps), whole, TotalFrames(ps), |ps|);
    }
  }

  lemma GapBound(rate: int, a: int, b: int, frames: int, n: nat)
    requires rate > 0
    requires -(n * rate) <= 2 * (rate * a) - 2000 * frames <= n * rate
    requires -rate <= 2 * (rate * b) - 2000 * frames <= rate
    ensures -(n + 1) <= 2 * (a - b) <= n + 1
  {
    var d := 2 * (a - b);
    assert rate * d == 2 * (rate * a) - 2 * (rate * b);
    assert (n + 1) * rate == n * rate + rate;
    if d > n + 1 {
      ScaleUp(n + 1, d, rate);
    }
    if d < -(n + 1) {
      ScaleUp(d, -(n + 1), rate);
    }
  }

  lemma ScaleUp(a: int, b: int, rate: int)
    requires rate > 0 && a < b
    ensures a * rate < b * rate
  {
    assert (b - a) * rate > 0;
  }
}
