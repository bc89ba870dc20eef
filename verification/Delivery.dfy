/** The two delivery paths of `synthesize_core`: one buffered body, or one payload per chunk. */
module Delivery {
  import opened Audio
  import opened Wrappers

  datatype ProviderResult = Raised | Returned(outputs: seq<Payload>)

  /** `synthesize_chunks` on a list of chunk texts, for fixed voice settings. */
  type Provider = seq<string> -> ProviderResult

  /** Target amplitude and RMS measurement, the parameters of the loudness step. */
  datatype Loud = Loud(target: real, rms: (seq<int>, int) -> real)

  datatype Body = Body(payload: Payload, chunks: nat, durationMs: int)

  // ---------------------------------------------------------------- buffered

  /** What `_run_synthesis` returns: the outputs of one provider call per chunk, appended.
      Before each call the client is probed; `connected` says what the probe finds. */
  function Collected(chunks: seq<string>, provider: Provider, connected: nat -> bool): Result<seq<Payload>, Error> {
    if chunks == [] then Ok([])
    else
      var n := |chunks| - 1;
      match Collected(chunks[..n], provider, connected)
      case Err(e) => Err(e)
      case Ok(before) =>
        if !connected(n) then Err(ClientGone)
        else
          match provider([chunks[n]])
          case Raised => Err(ProviderRaised)
          case Returned(outputs) => Ok(before + outputs)
  }

  lemma {:induction false} CollectedFails(chunks: seq<string>, provider: Provider, connected: nat -> bool, i: nat)
    requires i <= |chunks| && Collected(chunks[..i], provider, connected).Err?
    ensures Collected(chunks, provider, connected) == Err(Collected(chunks[..i], provider, connected).error)
    decreases |chunks|
  {
    if i == |chunks| {
      assert chunks[..i] == chunks;
    } else {
      var front := chunks[..|chunks| - 1];
      assert front[..i] == chunks[..i];
      CollectedFails(front, provider, connected, i);
    }
  }

  method RunSynthesis(chunks: seq<string>, provider: Provider, connected: nat -> bool)
    returns (r: Result<seq<Payload>, Error>)
    ensures r == Collected(chunks, provider, connected)
  {
    var outputs: seq<Payload> := [];
    for i := 0 to |chunks|
      invariant Collected(chunks[..i], provider, connected) == Ok(outputs)
    {
      assert chunks[..i + 1][..i] == chunks[..i] && chunks[..i + 1][i] == chunks[i];
      if !connected(i) {
        CollectedFails(chunks, provider, connected, i + 1);
        return Err(ClientGone);
      }
      var result := provider([chunks[i]]);
      if result.Raised? {
        CollectedFails(chunks, provider, connected, i + 1);
        return Err(ProviderRaised);
      }
      outputs := outputs + result.outputs;
    }
    assert chunks[..|chunks|] == chunks;
    r := Ok(outputs);
  }

  /** The synthesis has outputs exactly when the client stays and no call raises; otherwise the
      first probe or call that fails, in the order they are made, decides the error. */
  lemma {:induction false} CollectedIff(chunks: seq<string>, provider: Provider, connected: nat -> bool)
    ensures Collected(chunks, provider, connected).Ok?
            <==> forall i | 0 <= i < |chunks| :: connected(i) && provider([chunks[i]]).Returned?
    ensures Collected(chunks, provider, connected).Err? ==>
      exists i | 0 <= i < |chunks| ::
        && (forall j | 0 <= j < i :: connected(j) && provider([chunks[j]]).Returned?)
        && if connected(i)
           then provider([chunks[i]]).Raised? && Collected(chunks, provider, connected).error == ProviderRaised
           else Collected(chunks, provider, connected).error == ClientGone
  {
    if chunks != [] {
      var n := |chunks| - 1;
      CollectedIff(chunks[..n], provider, connected);
      assert forall i | 0 <= i < n :: chunks[..n][i] == chunks[i];
      if Collected(chunks[..n], provider, connected).Ok? {
        assert Collected(chunks, provider, connected).Err? ==> !connected(n) || provider([chunks[n]]).Raised?;
      }
    }
  }

  /** All the outputs of all the calls. */
  function Flat(outs: seq<seq<Payload>>): seq<Payload> {
    if outs == [] then [] else outs[0] + Flat(outs[1..])
  }

  lemma {:induction false} FlatSnoc(outs: seq<seq<Payload>>, last: seq<Payload>)
    ensures Flat(outs + [last]) == Flat(outs) + last
  {
    if outs == [] {
      assert outs + [last] == [last] && [last][1..] == [];
    } else {
      assert (outs + [last])[1..] == outs[1..] + [last];
      FlatSnoc(outs[1..], last);
    }
  }

  /** With the client there, the result is every output of every call, in chunk order. */
  lemma {:induction false} CollectedIsFlat(chunks: seq<string>, provider: Provider, connected: nat -> bool,
                                           outs: seq<seq<Payload>>)
    requires |outs| == |chunks| && forall i | 0 <= i < |chunks| :: connected(i)
    requires forall i | 0 <= i < |chunks| :: provider([chunks[i]]) == Returned(outs[i])
    ensures Collected(chunks, provider, connected) == Ok(Flat(outs))
    decreases |chunks|
  {
    if chunks != [] {
      var n := |chunks| - 1;
      assert forall i | 0 <= i < n :: chunks[..n][i] == chunks[i] && outs[..n][i] == outs[i];
      CollectedIsFlat(chunks[..n], provider, connected, outs[..n]);
      FlatSnoc(outs[..n], outs[n]);
      assert outs[..n] + [outs[n]] == outs;
    }
  }

  function NormalizeAll(ps: seq<Payload>, loud: Loud): Result<seq<Payload>, Error> {
    if ps == [] then Ok([])
    else
      match NormalizeAll(ps[..|ps| - 1], loud)
      case Err(e) => Err(e)
      case Ok(before) =>
        match Normalize(ps[|ps| - 1], loud.target, loud.rms)
        case Err(e) => Err(e)
        case Ok(p) => Ok(before + [p])
  }

  /** The buffered response: normalise every output, concatenate, measure. */
  function BufferedBody(outputs: seq<Payload>, loud: Loud): Result<Body, Error> {
    match NormalizeAll(outputs, loud)
    case Err(e) => Err(e)
    case Ok(normalized) =>
      match Merged(normalized)
      case Err(e) => Err(e)
      case Ok(payload) => Ok(Body(payload, |outputs|, DurationMs(payload)))
  }

  function Buffered(chunks: seq<string>, provider: Provider, connected: nat -> bool, loud: Loud): Result<Body, Error> {
    match Collected(chunks, provider, connected)
    case Err(e) => Err(e)
    case Ok(outputs) => BufferedBody(outputs, loud)
  }

  // ---------------------------------------------------------------- streaming

  /** The payload the stream sends for one chunk: the first output, normalised. */
  function Streamed(chunk: string, provider: Provider, loud: Loud): Result<Payload, Error> {
    match provider([chunk])
    case Raised => Err(ProviderRaised)
    case Returned(outputs) => if outputs == [] then Err(NoResult) else Normalize(outputs[0], loud.target, loud.rms)
  }

  /** A stream sends one payload per chunk, the first, where the buffered path takes them all. */
  lemma StreamSendsFirst(chunk: string, provider: Provider, loud: Loud, outputs: seq<Payload>)
    requires provider([chunk]) == Returned(outputs)
    ensures outputs == [] ==> Streamed(chunk, provider, loud) == Err(NoResult)
    ensures outputs != [] ==>
      NormalizeAll([outputs[0]], loud) == match Streamed(chunk, provider, loud)
                                          case Ok(p) => Ok([p])
                                          case Err(e) => Err(e)
  {
    if outputs != [] {
      var first := [outputs[0]];
      assert first[..|first| - 1] == [] && NormalizeAll(first[..|first| - 1], loud) == Ok([]);
      match Normalize(outputs[0], loud.target, loud.rms)
      case Err(_) =>
      case Ok(p) => assert [] + [p] == [p];
    }
  }

  datatype Ended = Exhausted | Failed(error: Error)

  /** `_stream_synthesis_chunks`, pulled to its end: the payloads yielded and the trailer
      totals. Every chunk before a failing one has been sent, and the totals describe
      exactly what was sent. */
  method StreamChunks(chunks: seq<string>, provider: Provider, loud: Loud)
    returns (yielded: seq<Payload>, totalChunks: nat, totalMs: int, ended: Ended)
    ensures |yielded| <= |chunks|
    ensures forall i | 0 <= i < |yielded| :: Streamed(chunks[i], provider, loud) == Ok(yielded[i])
    ensures totalChunks == |yielded| && totalMs == TotalMs(yielded)
    ensures ended.Exhausted? <==> |yielded| == |chunks|
    ensures ended.Failed? ==> |yielded| < |chunks| && Streamed(chunks[|yielded|], provider, loud) == Err(ended.error)
  {
    yielded, totalChunks, totalMs := [], 0, 0;
    for i := 0 to |chunks|
      invariant |yielded| == i && totalChunks == i && totalMs == TotalMs(yielded)
      invariant forall j | 0 <= j < i :: Streamed(chunks[j], provider, loud) == Ok(yielded[j])
    {
      var result := provider([chunks[i]]);
      if result.Raised? {
        return yielded, totalChunks, totalMs, Failed(ProviderRaised);
      }
      if result.outputs == [] {
        return yielded, totalChunks, totalMs, Failed(NoResult);
      }
      var normalized := Normalize(result.outputs[0], loud.target, loud.rms);
      if normalized.Err? {
        return yielded, totalChunks, totalMs, Failed(normalized.error);
      }
      totalChunks := totalChunks + 1;
      totalMs := totalMs + DurationMs(normalized.value);
      assert (yielded + [normalized.value])[..i] == yielded;
      yielded := yielded + [normalized.value];
    }
    ended := Exhausted;
  }

  // ---------------------------------------------------------------- agreement

  /** The provider contract: one readable WAV per chunk. */
  ghost predicate OneWavPerChunk(chunks: seq<string>, provider: Provider, wavs: seq<Wav>) {
    |wavs| == |chunks| && forall i | 0 <= i < |chunks| :: provider([chunks[i]]) == Returned([Sound(wavs[i])])
  }

  /** What a stream that ran to its end has sent. */
  ghost predicate StreamedAll(chunks: seq<string>, provider: Provider, loud: Loud, yielded: seq<Payload>) {
    |yielded| == |chunks| && forall i | 0 <= i < |chunks| :: Streamed(chunks[i], provider, loud) == Ok(yielded[i])
  }

  ghost predicate AlwaysConnected(n: nat, connected: nat -> bool) {
    forall i | 0 <= i < n :: connected(i)
  }

  lemma {:induction false} CollectsTheWavs(chunks: seq<string>, provider: Provider, connected: nat -> bool,
                                           wavs: seq<Wav>)
    requires OneWavPerChunk(chunks, provider, wavs) && AlwaysConnected(|chunks|, connected)
    ensures Collected(chunks, provider, connected).Ok?
    ensures var outputs := Collected(chunks, provider, connected).value;
      |outputs| == |wavs| && forall i | 0 <= i < |wavs| :: outputs[i] == Sound(wavs[i])
    decreases |chunks|
  {
    if chunks != [] {
      var n := |chunks| - 1;
      assert OneWavPerChunk(chunks[..n], provider, wavs[..n]);
      CollectsTheWavs(chunks[..n], provider, connected, wavs[..n]);
      assert provider([chunks[n]]) == Returned([Sound(wavs[n])]);
    }
  }

  lemma {:induction false} NormalizeAllSucceeds(ps: seq<Payload>, loud: Loud, normalized: seq<Payload>)
    requires |normalized| == |ps|
    requires forall i | 0 <= i < |ps| :: Normalize(ps[i], loud.target, loud.rms) == Ok(normalized[i])
    ensures NormalizeAll(ps, loud) == Ok(normalized)
    decreases |ps|
  {
    hide Normalize;
    if ps != [] {
      var n := |ps| - 1;
      NormalizeAllSucceeds(ps[..n], loud, normalized[..n]);
      assert normalized == normalized[..n] + [normalized[n]];
    }
  }

  lemma BothNormalizeTheSame(chunks: seq<string>, provider: Provider, connected: nat -> bool,
                             loud: Loud, wavs: seq<Wav>, yielded: seq<Payload>)
    requires OneWavPerChunk(chunks, provider, wavs) && StreamedAll(chunks, provider, loud, yielded)
    requires AlwaysConnected(|chunks|, connected)
    ensures Collected(chunks, provider, connected).Ok?
    ensures |Collected(chunks, provider, connected).value| == |chunks|
    ensures NormalizeAll(Collected(chunks, provider, connected).value, loud) == Ok(yielded)
  {
    CollectsTheWavs(chunks, provider, connected, wavs);
    hide Normalize, Collected, NormalizeAll, AlwaysConnected;
    var outputs := Collected(chunks, provider, connected).value;
    forall i | 0 <= i < |outputs| ensures Normalize(outputs[i], loud.target, loud.rms) == Ok(yielded[i]) {
      assert Streamed(chunks[i], provider, loud) == Ok(yielded[i]);
      assert provider([chunks[i]]) == Returned([Sound(wavs[i])]);
    }
    NormalizeAllSucceeds(outputs, loud, yielded);
  }

  /** Loudness normalisation can write this WAV back. */
  predicate Normalizable(w: Wav, loud: Loud) {
    w.params.rate >= 1 || !Audible(w, loud.rms)
  }

  /** With a provider that keeps the contract a chunk fails to stream exactly when its WAV has
      audible samples and no frame rate; otherwise the payload sent is that WAV brought to the
      target amplitude. */
  lemma StreamKeepsShape(chunks: seq<string>, provider: Provider, loud: Loud, wavs: seq<Wav>, i: nat)
    requires OneWavPerChunk(chunks, provider, wavs) && i < |chunks|
    ensures var s := Streamed(chunks[i], provider, loud);
      && (s.Ok? <==> Normalizable(wavs[i], loud))
      && (s.Ok? ==> s.value.Sound? && Levelled(wavs[i], s.value.wav, loud.target, loud.rms)
                    && s.value.wav.params == wavs[i].params && |s.value.wav.samples| == |wavs[i].samples|)
  {
    assert provider([chunks[i]]) == Returned([Sound(wavs[i])]);
    NormalizeLevels(wavs[i], loud.target, loud.rms);
  }

  predicate SameParams(wavs: seq<Wav>) {
    forall i | 0 <= i < |wavs| :: wavs[i].params == wavs[0].params
  }

  /** One set of parameters and, where there is something to join, one that can be written. */
  predicate Joinable(wavs: seq<Wav>)
    requires wavs != []
  {
    SameParams(wavs) && (|wavs| == 1 || (1 <= wavs[0].params.width <= 4 && wavs[0].params.rate >= 1))
  }

  lemma MergesIffJoinable(chunks: seq<string>, provider: Provider, loud: Loud, wavs: seq<Wav>, yielded: seq<Payload>)
    requires chunks != [] && OneWavPerChunk(chunks, provider, wavs)
    requires StreamedAll(chunks, provider, loud, yielded)
    ensures forall i | 0 <= i < |chunks| :: yielded[i].Sound? && yielded[i].wav.params == wavs[i].params
    ensures Merged(yielded).Ok? <==> Joinable(wavs)
  {
    forall i | 0 <= i < |chunks| ensures yielded[i].Sound? && yielded[i].wav.params == wavs[i].params {
      StreamKeepsShape(chunks, provider, loud, wavs, i);
      assert Streamed(chunks[i], provider, loud) == Ok(yielded[i]);
    }
    if Mergeable(yielded) {
      forall i | 0 <= i < |wavs| ensures wavs[i].params == wavs[0].params {
        assert yielded[i].wav.params == yielded[0].wav.params;
      }
    }
  }

  lemma BufferedFromStream(chunks: seq<string>, provider: Provider, connected: nat -> bool, loud: Loud,
                           wavs: seq<Wav>, yielded: seq<Payload>)
    requires OneWavPerChunk(chunks, provider, wavs) && StreamedAll(chunks, provider, loud, yielded)
    requires AlwaysConnected(|chunks|, connected)
    ensures Buffered(chunks, provider, connected, loud)
         == match Merged(yielded)
            case Err(e) => Err(e)
            case Ok(payload) => Ok(Body(payload, |chunks|, DurationMs(payload)))
  {
    BothNormalizeTheSame(chunks, provider, connected, loud, wavs, yielded);
    hide Collected, NormalizeAll, Merged;
  }

  lemma MergedSamples(ps: seq<Payload>)
    requires ps != [] && ps[0].Sound? && Merged(ps).Ok?
    ensures var p := Merged(ps).value;
      p.Sound? && p.wav.params == ps[0].wav.params && p.wav.samples == AllSamples(ps)
  {
    assert |ps| == 1 ==> ps[..0] == [] && AllSamples(ps) == [] + ps[0].wav.samples;
  }

  /** Stream/buffer agreement. When the provider returns one WAV per chunk, the client stays
      and the stream runs to its end, the buffered response exists exactly when the WAVs are
      joinable; then its samples are the streamed ones concatenated, the chunk counts agree,
      and the summed trailer duration is within `(n + 1) / 2` ms of the buffered one, equal to
      it for a single chunk. */
  lemma StreamAgreesWithBuffer(chunks: seq<string>, provider: Provider, connected: nat -> bool, loud: Loud,
                               wavs: seq<Wav>, yielded: seq<Payload>)
    requires chunks != [] && OneWavPerChunk(chunks, provider, wavs) && AlwaysConnected(|chunks|, connected)
    requires StreamedAll(chunks, provider, loud, yielded)
    ensures Buffered(chunks, provider, connected, loud).Ok? <==> Joinable(wavs)
    ensures Joinable(wavs) ==>
      var body := Buffered(chunks, provider, connected, loud).value;
      && body.payload.Sound? && body.payload.wav.params == wavs[0].params
      && body.payload.wav.samples == AllSamples(yielded)
      && body.chunks == |yielded|
      && -(|chunks| + 1) <= 2 * (TotalMs(yielded) - body.durationMs) <= |chunks| + 1
      && (|chunks| == 1 ==> TotalMs(yielded) == body.durationMs)
  {
    BufferedFromStream(chunks, provider, connected, loud, wavs, yielded);
    MergesIffJoinable(chunks, provider, loud, wavs, yielded);
    hide Buffered, Merged, Joinable, OneWavPerChunk, AllSamples, TotalMs, DurationMs;
    if Joinable(wavs) {
      DurationsAgree(yielded);
      MergedSamples(yielded);
    }
  }

  lemma {:induction false} NormalizeAllFails(ps: seq<Payload>, loud: Loud, i: nat)
    requires i < |ps| && Normalize(ps[i], loud.target, loud.rms).Err?
    ensures NormalizeAll(ps, loud).Err?
    decreases |ps|
  {
    if i < |ps| - 1 {
      NormalizeAllFails(ps[..|ps| - 1], loud, i);
    }
  }

  /** Payload `j` is the first that cannot be normalised. */
  ghost predicate FirstUnnormal(ps: seq<Payload>, j: nat, e: Error, loud: Loud) {
    && j < |ps| && Normalize(ps[j], loud.target, loud.rms) == Err(e)
    && forall k | 0 <= k < j :: Normalize(ps[k], loud.target, loud.rms).Ok?
  }

  /** Normalising a list fails with the error of the first payload that cannot be normalised. */
  lemma {:induction false} NormalizeAllFirst(ps: seq<Payload>, loud: Loud)
    ensures NormalizeAll(ps, loud).Err? ==>
      exists j: nat :: FirstUnnormal(ps, j, NormalizeAll(ps, loud).error, loud)
    ensures NormalizeAll(ps, loud).Ok? ==>
      forall i | 0 <= i < |ps| :: Normalize(ps[i], loud.target, loud.rms).Ok?
    decreases |ps|
  {
    hide Normalize;
    if ps != [] {
      var n := |ps| - 1;
      var front := ps[..n];
      NormalizeAllFirst(front, loud);
      assert forall i | 0 <= i < n :: front[i] == ps[i];
      if NormalizeAll(front, loud).Err? {
        var e := NormalizeAll(front, loud).error;
        var j: nat :| FirstUnnormal(front, j, e, loud);
        assert FirstUnnormal(ps, j, e, loud);
      } else if NormalizeAll(ps, loud).Err? {
        assert FirstUnnormal(ps, n, NormalizeAll(ps, loud).error, loud);
      }
    }
  }

  /** When a buffered response exists, for a provider that keeps the contract: exactly when the
      client stays, every WAV can be normalised, and together they can be joined. */
  lemma BufferedExistsIff(chunks: seq<string>, provider: Provider, connected: nat -> bool, loud: Loud, wavs: seq<Wav>)
    requires chunks != [] && OneWavPerChunk(chunks, provider, wavs)
    ensures Buffered(chunks, provider, connected, loud).Ok?
            <==> && AlwaysConnected(|chunks|, connected)
                 && (forall i | 0 <= i < |wavs| :: Normalizable(wavs[i], loud))
                 && Joinable(wavs)
  {
    CollectedIff(chunks, provider, connected);
    if AlwaysConnected(|chunks|, connected) {
      if i :| 0 <= i < |wavs| && !Normalizable(wavs[i], loud) {
        CollectsTheWavs(chunks, provider, connected, wavs);
        NormalizeLevels(wavs[i], loud.target, loud.rms);
        NormalizeAllFails(Collected(chunks, provider, connected).value, loud, i);
      } else {
        forall i | 0 <= i < |chunks| ensures Streamed(chunks[i], provider, loud).Ok? {
          StreamKeepsShape(chunks, provider, loud, wavs, i);
        }
        var yielded := seq(|chunks|, i requires 0 <= i < |chunks| => Streamed(chunks[i], provider, loud).value);
        StreamAgreesWithBuffer(chunks, provider, connected, loud, wavs, yielded);
      }
    }
  }

  /** `samples` are those of `parts`, one after the other. */
  function Concatenated(parts: seq<Wav>): seq<int> {
    if parts == [] then [] else parts[0].samples + Concatenated(parts[1..])
  }

  lemma {:induction false} ConcatenatedSnoc(parts: seq<Wav>, last: Wav)
    ensures Concatenated(parts + [last]) == Concatenated(parts) + last.samples
  {
    if parts == [] {
      assert parts + [last] == [last] && [last][1..] == [];
    } else {
      assert (parts + [last])[1..] == parts[1..] + [last];
      ConcatenatedSnoc(parts[1..], last);
    }
  }

  lemma {:induction false} AllSamplesConcatenated(ps: seq<Payload>, parts: seq<Wav>)
    requires |parts| == |ps| && forall i | 0 <= i < |ps| :: ps[i] == Sound(parts[i])
    ensures AllSamples(ps) == Concatenated(parts)
    decreases |ps|
  {
    if ps != [] {
      var n := |ps| - 1;
      AllSamplesConcatenated(ps[..n], parts[..n]);
      ConcatenatedSnoc(parts[..n], parts[n]);
      assert parts[..n] + [parts[n]] == parts;
    }
  }

  /** What a stream that can run to its end sends, as WAVs. */
  lemma StreamParts(chunks: seq<string>, provider: Provider, loud: Loud, wavs: seq<Wav>)
    returns (parts: seq<Wav>, yielded: seq<Payload>)
    requires OneWavPerChunk(chunks, provider, wavs)
    requires forall i | 0 <= i < |wavs| :: Normalizable(wavs[i], loud)
    ensures |parts| == |wavs| && |yielded| == |wavs| && StreamedAll(chunks, provider, loud, yielded)
    ensures forall i | 0 <= i < |wavs| :: yielded[i] == Sound(parts[i])
    ensures forall i | 0 <= i < |wavs| :: Levelled(wavs[i], parts[i], loud.target, loud.rms)
  {
    parts, yielded := [], [];
    hide Levelled, Streamed, Normalizable;
    for k := 0 to |wavs|
      invariant |parts| == |yielded| == k
      invariant forall i | 0 <= i < k :: Streamed(chunks[i], provider, loud) == Ok(yielded[i])
      invariant forall i | 0 <= i < k :: yielded[i] == Sound(parts[i])
      invariant forall i | 0 <= i < k :: Levelled(wavs[i], parts[i], loud.target, loud.rms)
    {
      StreamKeepsShape(chunks, provider, loud, wavs, k);
      var sent := Streamed(chunks[k], provider, loud).value;
      parts, yielded := parts + [sent.wav], yielded + [sent];
    }
  }

  /** What a buffered response contains: each chunk's WAV brought to the target amplitude, all
      of them one after the other under their common parameters. */
  lemma BufferedIsLevelled(chunks: seq<string>, provider: Provider, connected: nat -> bool, loud: Loud, wavs: seq<Wav>)
    returns (parts: seq<Wav>)
    requires chunks != [] && OneWavPerChunk(chunks, provider, wavs)
    requires Buffered(chunks, provider, connected, loud).Ok?
    ensures |parts| == |wavs|
    ensures forall i | 0 <= i < |wavs| :: Levelled(wavs[i], parts[i], loud.target, loud.rms)
    ensures var body := Buffered(chunks, provider, connected, loud).value;
      && body.payload.Sound? && body.payload.wav.params == wavs[0].params
      && body.payload.wav.samples == Concatenated(parts) && body.chunks == |chunks|
  {
    assert |wavs| == |chunks|;
    BufferedExistsIff(chunks, provider, connected, loud, wavs);
    hide Levelled, Normalizable, Buffered, Joinable, AllSamples, TotalMs, OneWavPerChunk, StreamedAll, AlwaysConnected,
         Concatenated;
    var yielded;
    parts, yielded := StreamParts(chunks, provider, loud, wavs);
    StreamAgreesWithBuffer(chunks, provider, connected, loud, wavs, yielded);
    AllSamplesConcatenated(yielded, parts);
  }
}
