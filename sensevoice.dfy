/** The SenseVoice transcriber (sensevoice_transcription.py): pause-based
    segment boundaries over a 10 ms silence mask, the model configuration
    table and the per-name model cache, the aggregation of per-segment results
    into one transcript, and the language guard on array input.  The speech
    model, its loader and its text post-processing are oracles. */
module SenseVoice {
  import opened Common
  import opened Text
  import opened Intervals

  // ---------------------------------------------------------------------------
  // Segment boundaries.  Time runs in ticks of 10 ms (one analysis hop of 160
  // samples at 16 kHz); a boundary at tick i lies at 10 * i milliseconds.
  // ---------------------------------------------------------------------------

  const TickMs: nat := 10
  const SamplesPerTick: nat := 160
  const SamplesPerMs: nat := 16
  /** A pause only closes a segment that is more than 5 s long. */
  const MinPauseCutMs: nat := 5000
  const BaseChunkSeconds: nat := 30

  /** What the signal analysis yields for a file: its length in samples at
      16 kHz, and per 10 ms frame whether the frame's energy is below 1% of the
      loudest frame's. */
  datatype Analysis = Analysis(samples: nat, silent: seq<bool>)

  /** Speech stops at tick i: frame i - 1 is voiced and frame i silent. */
  predicate PauseOnset(silent: seq<bool>, i: nat)
    requires 1 <= i < |silent|
  {
    !silent[i - 1] && silent[i]
  }

  /** A boundary at the millisecond `ms` falls on a tick where speech stops. */
  predicate PauseAt(silent: seq<bool>, ms: nat) {
    ms % TickMs == 0 && 1 <= ms / TickMs < |silent| && PauseOnset(silent, ms / TickMs)
  }

  /** The cut test at tick i for a segment that started at tick `start`: a
      pause after more than 5 s, or `base` seconds reached. */
  predicate CutAt(silent: seq<bool>, i: nat, start: nat, base: nat)
    requires 1 <= i < |silent|
  {
    (PauseOnset(silent, i) && TickMs * (i - start) > MinPauseCutMs)
    || TickMs * (i - start) >= base * 1000
  }

  /** The boundaries found from tick i on, and the tick at which the open
      segment starts when the frames run out. */
  datatype Scan = Scan(cuts: seq<Span>, lastStart: nat)

  function ScanFrom(silent: seq<bool>, i: nat, start: nat, base: nat): Scan
    requires 1 <= i
    decreases |silent| - i
  {
    if i >= |silent| then Scan([], start)
    else if CutAt(silent, i, start, base) then
      var rest := ScanFrom(silent, i + 1, i, base);
      Scan([Span(TickMs * start, TickMs * i)] + rest.cuts, rest.lastStart)
    else ScanFrom(silent, i + 1, start, base)
  }

  /** The boundaries of the pause pass: the cuts, then the open segment up to
      the end of the audio if it starts before the end. */
  function Boundaries(a: Analysis, base: nat): seq<Span> {
    var s := ScanFrom(a.silent, 1, 0, base);
    s.cuts + (if SamplesPerTick * s.lastStart < a.samples
              then [Span(TickMs * s.lastStart, a.samples / SamplesPerMs)] else [])
  }

  /** `find_speech_segments`: `analysis` is None when the audio cannot be
      analysed, and `fileLength` is the length in milliseconds the fallback
      chunker reads (None when it cannot open the file either).  Without any
      boundary the audio is cut in fixed `base`-second chunks; a zero `base`
      makes that `range` raise, which lands in the fallback chunker. */
  function SpeechSegments(analysis: Option<Analysis>, fileLength: Option<nat>, base: nat): seq<Span> {
    match analysis
    case None => FixedChunks(fileLength, base * 1000)
    case Some(a) =>
      var b := Boundaries(a, base);
      if b != [] then b
      else if base == 0 then FixedChunks(fileLength, 0)
      else FixedFrom(0, a.samples / SamplesPerMs, base * 1000)
  }

  /** The loop of `find_speech_segments`, with the segment start kept in ticks. */
  method FindSpeechSegments(analysis: Option<Analysis>, fileLength: Option<nat>, base: nat)
    returns (segments: seq<Span>)
    ensures segments == SpeechSegments(analysis, fileLength, base)
  {
    if analysis.None? {
      segments := CreateFixedChunks(fileLength, base * 1000);
      return;
    }
    var silent := analysis.value.silent;
    var samples := analysis.value.samples;
    var boundaries: seq<Span> := [];
    var start: nat := 0;
    var i: nat := 1;
    while i < |silent|
      invariant 1 <= i
      invariant boundaries + ScanFrom(silent, i, start, base).cuts == ScanFrom(silent, 1, 0, base).cuts
      invariant ScanFrom(silent, i, start, base).lastStart == ScanFrom(silent, 1, 0, base).lastStart
      decreases |silent| - i
    {
      if (!silent[i - 1] && silent[i] && TickMs * (i - start) > MinPauseCutMs)
         || TickMs * (i - start) >= base * 1000
      {
        boundaries := boundaries + [Span(TickMs * start, TickMs * i)];
        start := i;
      }
      i := i + 1;
    }
    if SamplesPerTick * start < samples {
      boundaries := boundaries + [Span(TickMs * start, samples / SamplesPerMs)];
    }
    if boundaries != [] {
      segments := boundaries;
    } else if base == 0 {
      segments := CreateFixedChunks(fileLength, 0);
    } else {
      segments := FixedFrom(0, samples / SamplesPerMs, base * 1000);
    }
  }

  /** Each cut holds audio and at most `base` seconds of it (one tick when
      `base` is zero). */
  predicate CutsBounded(cuts: seq<Span>, base: nat) {
    forall k :: 0 <= k < |cuts| ==>
      0 < Length(cuts[k]) && (Length(cuts[k]) <= base * 1000 || Length(cuts[k]) == TickMs)
  }

  /** A cut made at tick i for a segment that had not reached `base` seconds
      one tick earlier is at most `base` seconds long, or one tick. */
  lemma CutLength(i: nat, start: nat, base: nat)
    requires start < i
    requires start == i - 1 || TickMs * (i - 1 - start) < base * 1000
    ensures 0 < TickMs * i - TickMs * start
    ensures TickMs * i - TickMs * start <= base * 1000 || TickMs * i - TickMs * start == TickMs
  {
  }

  /** A bounded cut in front of bounded cuts. */
  lemma CutsBoundedCons(h: Span, rest: seq<Span>, base: nat)
    requires 0 < Length(h) && (Length(h) <= base * 1000 || Length(h) == TickMs)
    requires CutsBounded(rest, base)
    ensures CutsBounded([h] + rest, base)
  {
    var cuts := [h] + rest;
    forall k | 0 <= k < |cuts|
      ensures 0 < Length(cuts[k]) && (Length(cuts[k]) <= base * 1000 || Length(cuts[k]) == TickMs)
    {
      if k > 0 {
        assert cuts[k] == rest[k - 1];
      }
    }
  }

  /** The pause pass from tick i: its cuts tile the time from the segment
      start to the last start, and each holds audio and at most `base` seconds
      of it (one tick when `base` is zero). */
  lemma {:induction false} ScanTiles(silent: seq<bool>, i: nat, start: nat, base: nat)
    requires 1 <= i && start < i
    requires start == i - 1 || TickMs * (i - 1 - start) < base * 1000
    ensures Tiles(ScanFrom(silent, i, start, base).cuts, TickMs * start, TickMs * ScanFrom(silent, i, start, base).lastStart)
    ensures CutsBounded(ScanFrom(silent, i, start, base).cuts, base)
    decreases |silent| - i
  {
    if i < |silent| {
      if CutAt(silent, i, start, base) {
        var h := Span(TickMs * start, TickMs * i);
        ScanTiles(silent, i + 1, i, base);
        var rest := ScanFrom(silent, i + 1, i, base);
        assert ScanFrom(silent, i, start, base) == Scan([h] + rest.cuts, rest.lastStart);
        CutLength(i, start, base);
        TilesCons(h, rest.cuts, TickMs * rest.lastStart);
        CutsBoundedCons(h, rest.cuts, base);
      } else {
        assert ScanFrom(silent, i, start, base) == ScanFrom(silent, i + 1, start, base);
        ScanTiles(silent, i + 1, start, base);
      }
    }
  }

  /** Every cut shorter than `base` seconds is a pause cut: over 5 s long and
      ending where speech stops. */
  predicate ShortCutsArePauses(silent: seq<bool>, cuts: seq<Span>, base: nat) {
    forall k :: 0 <= k < |cuts| && Length(cuts[k]) < base * 1000 ==>
      Length(cuts[k]) > MinPauseCutMs && PauseAt(silent, cuts[k].end)
  }

  /** Only a pause closes a segment before `base` seconds. */
  lemma {:induction false} ScanPauses(silent: seq<bool>, i: nat, start: nat, base: nat)
    requires 1 <= i && start < i
    ensures ShortCutsArePauses(silent, ScanFrom(silent, i, start, base).cuts, base)
    decreases |silent| - i
  {
    if i < |silent| {
      if CutAt(silent, i, start, base) {
        var h := Span(TickMs * start, TickMs * i);
        ScanPauses(silent, i + 1, i, base);
        var rest := ScanFrom(silent, i + 1, i, base);
        var cuts := [h] + rest.cuts;
        assert ScanFrom(silent, i, start, base).cuts == cuts;
        forall k | 0 <= k < |cuts| && Length(cuts[k]) < base * 1000
          ensures Length(cuts[k]) > MinPauseCutMs && PauseAt(silent, cuts[k].end)
        {
          if k == 0 {
            assert Length(h) == TickMs * (i - start);
            assert h.end % TickMs == 0 && h.end / TickMs == i;
          } else {
            assert cuts[k] == rest.cuts[k - 1];
          }
        }
      } else {
        ScanPauses(silent, i + 1, start, base);
      }
    }
  }

  /** The segment left open when the frames run out starts at or after the
      scan's start, on a frame that exists, and less than `base` seconds of
      frames follow it. */
  lemma {:induction false} ScanLastStart(silent: seq<bool>, i: nat, start: nat, base: nat)
    requires 1 <= i && start < i
    requires start == i - 1 || TickMs * (i - 1 - start) < base * 1000
    ensures var s := ScanFrom(silent, i, start, base);
      && start <= s.lastStart
      && (s.lastStart == start || s.lastStart < |silent|)
      && (s.lastStart + 1 >= |silent| || TickMs * (|silent| - 1 - s.lastStart) < base * 1000)
    decreases |silent| - i
  {
    if i < |silent| {
      if CutAt(silent, i, start, base) {
        ScanLastStart(silent, i + 1, i, base);
      } else {
        ScanLastStart(silent, i + 1, start, base);
      }
    }
  }

  /** With one silence flag per 10 ms frame of the audio (the frame count of a
      centred analysis, `1 + samples / 160`), the boundaries tile the whole
      audio `[0, samples / 16]` milliseconds, all but the last are cuts, and
      the last is under `base` seconds plus one frame. */
  lemma BoundariesShape(a: Analysis, base: nat)
    requires |a.silent| == 1 + a.samples / SamplesPerTick && base >= 1
    ensures var b := Boundaries(a, base);
      var cuts := ScanFrom(a.silent, 1, 0, base).cuts;
      && Tiles(b, 0, a.samples / SamplesPerMs)
      && (b != [] ==> |b| - 1 <= |cuts| && b[..|b| - 1] == cuts[..|b| - 1])
      && (b == [] ==> a.samples == 0)
      && (b != [] ==> Length(b[|b| - 1]) < base * 1000 + TickMs)
  {
    var s := ScanFrom(a.silent, 1, 0, base);
    ScanTiles(a.silent, 1, 0, base);
    ScanLastStart(a.silent, 1, 0, base);
    OpenSegmentBounds(a.samples, |a.silent|, s.lastStart, base);
    BoundariesFrom(s.cuts, TickMs * s.lastStart, SamplesPerTick * s.lastStart < a.samples,
                   a.samples / SamplesPerMs, base, Boundaries(a, base));
  }

  /** The open segment after the last start `last` (in ticks) of an analysis
      of `n` frames: it does not begin after the end of the audio, it is empty
      when no audio follows its start, and it is under `base` seconds plus
      one frame long. */
  lemma OpenSegmentBounds(samples: nat, n: nat, last: nat, base: nat)
    requires n == 1 + samples / SamplesPerTick && base >= 1
    requires last == 0 || last < n
    requires last + 1 >= n || TickMs * (n - 1 - last) < base * 1000
    ensures TickMs * last <= samples / SamplesPerMs
    ensures !(SamplesPerTick * last < samples) ==> TickMs * last == samples / SamplesPerMs
    ensures samples / SamplesPerMs - TickMs * last < base * 1000 + TickMs
  {
    assert samples / SamplesPerMs == TickMs * (samples / SamplesPerTick) + (samples % SamplesPerTick) / SamplesPerMs;
  }

  /** The boundaries built from cuts that tile the audio up to the last start
      `start`, with the open segment `[start, end]` after them when `open`
      (audio follows that start). */
  lemma BoundariesFrom(cuts: seq<Span>, start: nat, open: bool, end: nat, base: nat, b: seq<Span>)
    requires Tiles(cuts, 0, start) && CutsBounded(cuts, base) && base >= 1 && start <= end
    requires !open ==> start == end
    requires end - start < base * 1000 + TickMs
    requires b == cuts + (if open then [Span(start, end)] else [])
    ensures Tiles(b, 0, end)
    ensures b != [] ==> |b| - 1 <= |cuts| && b[..|b| - 1] == cuts[..|b| - 1]
    ensures b == [] ==> !open && start == 0
    ensures b != [] ==> Length(b[|b| - 1]) < base * 1000 + TickMs
  {
    if open {
      WithOpenSegment(cuts, start, end, base);
      assert cuts[..|cuts|] == cuts;
    } else {
      assert b == cuts;
      if cuts != [] {
        assert 0 <= |cuts| - 1 < |cuts|;
      }
    }
  }

  /** Appending the open segment to cuts that tile up to its start. */
  lemma WithOpenSegment(cuts: seq<Span>, last: nat, end: nat, base: nat)
    requires Tiles(cuts, 0, last) && last <= end && end - last < base * 1000 + TickMs
    ensures var b := cuts + [Span(last, end)];
      && Tiles(b, 0, end)
      && b[..|b| - 1] == cuts
      && Length(b[|b| - 1]) < base * 1000 + TickMs
  {
    TilesAppend(cuts, [Span(last, end)], 0, last, end);
    assert (cuts + [Span(last, end)])[..|cuts|] == cuts;
  }

  /** With one silence flag per 10 ms frame of the audio, the segments tile
      the whole audio `[0, samples / 16]` milliseconds; every segment but the
      last is a cut of at most `base` seconds, and one shorter than that is
      over 5 s long and ends where speech stops; the last one is under `base`
      seconds plus one frame. */
  lemma SpeechSegmentsShape(a: Analysis, fileLength: Option<nat>, base: nat)
    requires |a.silent| == 1 + a.samples / SamplesPerTick && base >= 1
    ensures var r := SpeechSegments(Some(a), fileLength, base);
      && Tiles(r, 0, a.samples / SamplesPerMs)
      && (forall k :: 0 <= k < |r| - 1 ==> 0 < Length(r[k]) <= base * 1000)
      && (r != [] ==> ShortCutsArePauses(a.silent, r[..|r| - 1], base))
      && (r != [] ==> Length(r[|r| - 1]) < base * 1000 + TickMs)
  {
    var cuts := ScanFrom(a.silent, 1, 0, base).cuts;
    BoundariesShape(a, base);
    var r := SpeechSegments(Some(a), fileLength, base);
    var b := Boundaries(a, base);
    if b == [] {
      assert r == FixedFrom(0, 0, base * 1000) == [];
    } else {
      assert r == b;
      ScanTiles(a.silent, 1, 0, base);
      ScanPauses(a.silent, 1, 0, base);
      LeadingCuts(a.silent, cuts, b, base);
    }
  }

  /** Boundaries whose all-but-last agree with the scan's cuts inherit the
      cuts' bounds and pauses. */
  lemma LeadingCuts(silent: seq<bool>, cuts: seq<Span>, b: seq<Span>, base: nat)
    requires CutsBounded(cuts, base) && ShortCutsArePauses(silent, cuts, base) && base >= 1
    requires b != [] && |b| - 1 <= |cuts| && b[..|b| - 1] == cuts[..|b| - 1]
    ensures forall k :: 0 <= k < |b| - 1 ==> 0 < Length(b[k]) <= base * 1000
    ensures ShortCutsArePauses(silent, b[..|b| - 1], base)
  {
    forall k | 0 <= k < |b| - 1 ensures b[k] == cuts[k] {
      assert b[k] == b[..|b| - 1][k];
    }
  }

  // ---------------------------------------------------------------------------
  // Models.
  // ---------------------------------------------------------------------------

  datatype ModelConfig = ModelConfig(modelDir: string, description: string)

  predicate KnownModel(name: string) {
    name == "SenseVoiceSmall" || name == "SenseVoice" || name == "SenseVoiceLarge"
  }

  /** The model hub namespace every model directory lives under. */
  const ModelHub := "iic/"

  /** The configuration a name outside the three known models falls back to. */
  const SmallConfig := ModelConfig(ModelHub + "SenseVoiceSmall", "Fast and lightweight model")

  /** `_get_model_config`: the three known models live under `iic/` by their
      own name; any other name gets the small model's configuration. */
  function ModelConfigFor(name: string): (c: ModelConfig)
    ensures KnownModel(name) ==> c.modelDir == "iic/" + name
    ensures !KnownModel(name) ==> c == SmallConfig
  {
    if name == "SenseVoice" then ModelConfig(ModelHub + "SenseVoice", "Standard quality model")
    else if name == "SenseVoiceLarge" then ModelConfig(ModelHub + "SenseVoiceLarge", "High quality model (slower)")
    else SmallConfig
  }

  /** A loaded speech model. */
  datatype ModelHandle = ModelHandle(id: nat)

  /** Per-segment output of `transcribe_streaming`: a timestamped text, a
      segment the model answered nothing for, or an error that ends the run. */
  datatype StreamResult =
    | SegmentDone(segmentText: string, segmentNum: nat, totalSegments: nat)
    | SegmentEmpty(segmentNum: nat, totalSegments: nat)
    | StreamError(error: string)

  /** The answer of `transcribe`. */
  datatype TranscribeResult =
    | TranscribeFailed(error: string)
    | Transcribed(text: string, language: string, numSegments: nat)

  /** The answer of `transcribe_from_array`. */
  datatype ArrayAnswer =
    | ArrayFailed(error: string)
    | ArrayTranscribed(text: string, rawText: string, language: string)

  const NotAvailable := "SenseVoice is not available"
  const AutoUnsupported := "Language detection not supported for array input. Please specify language explicitly."
  const EmptyResult := "Model returned empty result"

  function LoadFailed(name: string): string {
    "Failed to load model: " + name
  }

  /** `"auto"` reaches the model as no language at all. */
  function ModelLanguage(language: string): Option<string> {
    if language == "auto" then None else Some(language)
  }

  /** The text yielded for a segment: `[MM:SS - MM:SS] text`. */
  function SegmentText(seg: Span, processed: string): (s: string)
    ensures |s| > 0 && s[0] == '['
  {
    "[" + FormatMillis(seg.start) + " - " + FormatMillis(seg.end) + "] " + processed
  }

  /** One result per segment, numbered from 1 with the total alongside;
      `generate` is the model's raw text for a segment (None for an empty
      result) and `postprocess` the rich-transcription clean-up. */
  function SegmentResults(model: ModelHandle, segs: seq<Span>, language: Option<string>,
                          generate: (ModelHandle, Span, Option<string>) -> Option<string>,
                          postprocess: string -> string): (r: seq<StreamResult>)
    ensures |r| == |segs|
    ensures forall k :: 0 <= k < |r| ==>
      && !r[k].StreamError?
      && r[k].segmentNum == k + 1 && r[k].totalSegments == |segs|
      && (r[k].SegmentDone? <==> generate(model, segs[k], language).Some?)
    ensures forall k :: 0 <= k < |r| && r[k].SegmentDone? ==>
      r[k].segmentText == SegmentText(segs[k], postprocess(generate(model, segs[k], language).value))
  {
    seq(|segs|, k requires 0 <= k < |segs| =>
      match generate(model, segs[k], language)
      case Some(raw) => SegmentDone(SegmentText(segs[k], postprocess(raw)), k + 1, |segs|)
      case None => SegmentEmpty(k + 1, |segs|))
  }

  /** `transcribe` keeps a result that succeeded with a non-empty text ... */
  predicate Kept(r: StreamResult) {
    r.SegmentDone? && r.segmentText != ""
  }

  /** ... and stops at one carrying a non-empty error. */
  predicate Stops(r: StreamResult) {
    r.StreamError? && r.error != ""
  }

  /** The texts `transcribe` collects, in yield order. */
  function KeptTexts(rs: seq<StreamResult>): (texts: seq<string>)
    ensures |texts| <= |rs|
    ensures forall k :: 0 <= k < |texts| ==> texts[k] != ""
    decreases |rs|
  {
    if rs == [] then []
    else KeptTexts(rs[..|rs| - 1]) + (if Kept(rs[|rs| - 1]) then [rs[|rs| - 1].segmentText] else [])
  }

  /** Every timestamped segment is kept: the texts collected from per-segment
      results are those of the segments the model answered, one each. */
  lemma {:induction false} KeptSegmentTexts(rs: seq<StreamResult>)
    requires forall k :: 0 <= k < |rs| ==> rs[k].SegmentDone? ==> rs[k].segmentText != ""
    ensures |KeptTexts(rs)| == |CountDone(rs)|
    decreases |rs|
  {
    if rs != [] {
      KeptSegmentTexts(rs[..|rs| - 1]);
    }
  }

  /** The results that carry a text. */
  function CountDone(rs: seq<StreamResult>): seq<StreamResult>
    decreases |rs|
  {
    if rs == [] then []
    else CountDone(rs[..|rs| - 1]) + (if rs[|rs| - 1].SegmentDone? then [rs[|rs| - 1]] else [])
  }

  /** The collection loop of `transcribe`: the first result carrying an error
      ends it with that error; otherwise the kept texts are joined by blank
      lines and counted. */
  method Collect(results: seq<StreamResult>, language: string) returns (r: TranscribeResult)
    ensures r.TranscribeFailed? <==> exists i :: 0 <= i < |results| && Stops(results[i])
    ensures r.TranscribeFailed? ==>
      exists i :: 0 <= i < |results| && Stops(results[i]) && r.error == results[i].error &&
        forall j :: 0 <= j < i ==> !Stops(results[j])
    ensures r.Transcribed? ==>
      r == Transcribed(Join("\n\n", KeptTexts(results)), language, |KeptTexts(results)|)
  {
    var texts: seq<string> := [];
    var i := 0;
    while i < |results|
      invariant 0 <= i <= |results|
      invariant forall j :: 0 <= j < i ==> !Stops(results[j])
      invariant texts == KeptTexts(results[..i])
    {
      assert results[..i + 1][..i] == results[..i];
      if Kept(results[i]) {
        texts := texts + [results[i].segmentText];
      } else if Stops(results[i]) {
        return TranscribeFailed(results[i].error);
      }
      i := i + 1;
    }
    assert results[..i] == results;
    r := Transcribed(Join("\n\n", texts), language, |texts|);
  }

  /** Collecting per-segment results, none of which is an error and each
      answered one with a timestamped text, transcribes every answered
      segment. */
  lemma SegmentRunCollected(rs: seq<StreamResult>, r: TranscribeResult, language: string)
    requires forall k :: 0 <= k < |rs| ==> !rs[k].StreamError? && (rs[k].SegmentDone? ==> rs[k].segmentText != "")
    requires r.TranscribeFailed? <==> exists i :: 0 <= i < |rs| && Stops(rs[i])
    requires r.Transcribed? ==> r == Transcribed(Join("\n\n", KeptTexts(rs)), language, |KeptTexts(rs)|)
    ensures r == Transcribed(Join("\n\n", KeptTexts(rs)), language, |KeptTexts(rs)|)
    ensures r.numSegments == |CountDone(rs)|
  {
    KeptSegmentTexts(rs);
  }

  /** `SenseVoiceTranscriber`: `available` records whether the post-processing
      import succeeded, `models` caches loaded models by name, and
      `currentModel` names the one loaded last. */
  class Transcriber {
    var models: map<string, ModelHandle>
    var currentModel: Option<string>
    var available: bool

    constructor (postprocessLoads: bool)
      ensures models == map[] && currentModel == None && available == postprocessLoads
    {
      models := map[];
      currentModel := None;
      available := postprocessLoads;
    }

    /** `_load_model`: `loader` builds a model from a model directory, or
        fails with None; success caches the model under its name. */
    method LoadModel(name: string, loader: string -> Option<ModelHandle>) returns (m: Option<ModelHandle>)
      modifies this
      ensures m == loader(ModelConfigFor(name).modelDir)
      ensures m.Some? ==> models == old(models)[name := m.value] && currentModel == Some(name)
      ensures m.None? ==> models == old(models) && currentModel == old(currentModel)
      ensures available == old(available)
    {
      m := loader(ModelConfigFor(name).modelDir);
      if m.Some? {
        models := models[name := m.value];
        currentModel := Some(name);
      }
    }

    /** `get_model`: a cached name is answered from the cache without
        loading; otherwise the model is loaded once, and a failed load leaves
        the cache as it was.  `loaded` says whether the loader ran. */
    method GetModel(name: string, loader: string -> Option<ModelHandle>)
      returns (m: Option<ModelHandle>, ghost loaded: bool)
      modifies this
      ensures loaded <==> name !in old(models)
      ensures !loaded ==> m == Some(old(models)[name]) && models == old(models) && currentModel == old(currentModel)
      ensures loaded ==> m == loader(ModelConfigFor(name).modelDir)
      ensures loaded && m.Some? ==> models == old(models)[name := m.value] && currentModel == Some(name)
      ensures m.Some? ==> name in models && models[name] == m.value
      ensures m.Some? ==> forall other :: other != name ==>
        (other in models <==> other in old(models)) && (other in models ==> models[other] == old(models)[other])
      ensures m.None? ==> models == old(models) && currentModel == old(currentModel)
      ensures available == old(available)
    {
      loaded := name !in models;
      if name !in models {
        m := LoadModel(name, loader);
        if m.None? {
          return;
        }
      }
      m := Some(models[name]);
    }

    /** `transcribe_streaming`: the guards for an unavailable transcriber, a
        missing file and a model that fails to load each yield one error;
        otherwise one result per segment of `find_speech_segments` (with its
        default 30 s base). */
    method TranscribeStreaming(path: string, fileExists: bool, language: string, name: string,
                               loader: string -> Option<ModelHandle>,
                               analysis: Option<Analysis>, fileLength: Option<nat>,
                               generate: (ModelHandle, Span, Option<string>) -> Option<string>,
                               postprocess: string -> string)
      returns (results: seq<StreamResult>)
      modifies this
      ensures !old(available) ==>
        results == [StreamError(NotAvailable)] && models == old(models) && currentModel == old(currentModel)
      ensures old(available) && !fileExists ==>
        && results == [StreamError("Audio file not found: " + path)]
        && models == old(models) && currentModel == old(currentModel)
      ensures old(available) && fileExists && name in old(models) ==>
        && models == old(models) && currentModel == old(currentModel)
        && results == SegmentResults(old(models)[name], SpeechSegments(analysis, fileLength, BaseChunkSeconds),
                                  ModelLanguage(language), generate, postprocess)
      ensures old(available) && fileExists && name !in old(models) ==>
        match loader(ModelConfigFor(name).modelDir)
        case None =>
          results == [StreamError(LoadFailed(name))] && models == old(models) && currentModel == old(currentModel)
        case Some(m) =>
          && models == old(models)[name := m] && currentModel == Some(name)
          && results == SegmentResults(m, SpeechSegments(analysis, fileLength, BaseChunkSeconds),
                                    ModelLanguage(language), generate, postprocess)
      ensures available == old(available)
    {
      if !available {
        return [StreamError(NotAvailable)];
      }
      if !fileExists {
        return [StreamError("Audio file not found: " + path)];
      }
      var model, loaded := GetModel(name, loader);
      if model.None? {
        return [StreamError(LoadFailed(name))];
      }
      var segments := FindSpeechSegments(analysis, fileLength, BaseChunkSeconds);
      results := SegmentResults(model.value, segments, ModelLanguage(language), generate, postprocess);
    }

    /** `transcribe`: the streamed results collected.  Exceptions are not
        modelled (in the source a failing ffmpeg call or a raising `generate`
        fails the run), so here, once the model is loaded, no segment fails
        the run: the transcript holds one timestamped text per segment the
        model answered. */
    method Transcribe(path: string, fileExists: bool, language: string, name: string,
                      loader: string -> Option<ModelHandle>,
                      analysis: Option<Analysis>, fileLength: Option<nat>,
                      generate: (ModelHandle, Span, Option<string>) -> Option<string>,
                      postprocess: string -> string)
      returns (r: TranscribeResult)
      modifies this
      ensures !old(available) ==>
        r == TranscribeFailed(NotAvailable) && models == old(models) && currentModel == old(currentModel)
      ensures old(available) && !fileExists ==>
        && r == TranscribeFailed("Audio file not found: " + path)
        && models == old(models) && currentModel == old(currentModel)
      ensures old(available) && fileExists && name in old(models) ==>
        && models == old(models) && currentModel == old(currentModel)
        && var results := SegmentResults(old(models)[name], SpeechSegments(analysis, fileLength, BaseChunkSeconds),
                                         ModelLanguage(language), generate, postprocess);
           && r == Transcribed(Join("\n\n", KeptTexts(results)), language, |KeptTexts(results)|)
           && r.numSegments == |CountDone(results)|
      ensures old(available) && fileExists && name !in old(models) ==>
        match loader(ModelConfigFor(name).modelDir)
        case None =>
          r == TranscribeFailed(LoadFailed(name)) && models == old(models) && currentModel == old(currentModel)
        case Some(m) =>
          && models == old(models)[name := m] && currentModel == Some(name)
          && var results := SegmentResults(m, SpeechSegments(analysis, fileLength, BaseChunkSeconds),
                                           ModelLanguage(language), generate, postprocess);
             && r == Transcribed(Join("\n\n", KeptTexts(results)), language, |KeptTexts(results)|)
             && r.numSegments == |CountDone(results)|
      ensures available == old(available)
    {
      var results := TranscribeStreaming(path, fileExists, language, name, loader, analysis, fileLength,
                                         generate, postprocess);
      r := Collect(results, language);
      if available && fileExists && name in models {
        SegmentRunCollected(results, r, language);
      }
    }

    /** `transcribe_from_array`: "auto" is refused before the model is
        touched; otherwise the model transcribes the array in the given
        language (`generate` gives its raw text, None for an empty result). */
    method TranscribeFromArray(language: string, name: string, loader: string -> Option<ModelHandle>,
                               generate: (ModelHandle, Option<string>) -> Option<string>,
                               postprocess: string -> string)
      returns (r: ArrayAnswer)
      modifies this
      ensures !old(available) ==>
        r == ArrayFailed(NotAvailable) && models == old(models) && currentModel == old(currentModel)
      ensures old(available) && language == "auto" ==>
        r == ArrayFailed(AutoUnsupported) && models == old(models) && currentModel == old(currentModel)
      ensures old(available) && language != "auto" && name in old(models) ==>
        && models == old(models) && currentModel == old(currentModel)
        && r == ArrayAnswerOf(old(models)[name], language, generate, postprocess)
      ensures old(available) && language != "auto" && name !in old(models) ==>
        match loader(ModelConfigFor(name).modelDir)
        case None =>
          r == ArrayFailed(LoadFailed(name)) && models == old(models) && currentModel == old(currentModel)
        case Some(m) =>
          && models == old(models)[name := m] && currentModel == Some(name)
          && r == ArrayAnswerOf(m, language, generate, postprocess)
      ensures r.ArrayTranscribed? ==>
        && name in models
        && generate(models[name], Some(language)) == Some(r.rawText)
        && r.text == postprocess(r.rawText)
      ensures available == old(available)
    {
      if !available {
        return ArrayFailed(NotAvailable);
      }
      if language == "auto" {
        return ArrayFailed(AutoUnsupported);
      }
      var model, loaded := GetModel(name, loader);
      if model.None? {
        return ArrayFailed(LoadFailed(name));
      }
      match generate(model.value, Some(language))
      case Some(raw) =>
        r := ArrayTranscribed(postprocess(raw), raw, language);
      case None =>
        r := ArrayFailed(EmptyResult);
    }
  }

  /** What the model answers for an array in `language`: the post-processed
      text next to the raw one, or the empty-result error. */
  function ArrayAnswerOf(m: ModelHandle, language: string,
                         generate: (ModelHandle, Option<string>) -> Option<string>,
                         postprocess: string -> string): (r: ArrayAnswer)
    ensures r.ArrayTranscribed? <==> generate(m, Some(language)).Some?
    ensures r.ArrayTranscribed? ==>
      r.rawText == generate(m, Some(language)).value && r.text == postprocess(r.rawText) && r.language == language
    ensures r.ArrayFailed? ==> r == ArrayFailed(EmptyResult)
  {
    match generate(m, Some(language))
    case Some(raw) => ArrayTranscribed(postprocess(raw), raw, language)
    case None => ArrayFailed(EmptyResult)
  }
}
