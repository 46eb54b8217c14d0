/** The Whisper streaming transcriber (whisper_transcription.py): the choice of
    an audio-only format, the pause-bounded segmenter that cuts the decoded
    16 kHz stream into segments, the pinning of the language detected on the
    first segment, and the events the generator yields.

    A frame is one read of the decoder's output: its samples and whether its
    mean energy was under the silence threshold (the floating-point energy
    test is an input).  The Whisper model is two oracles: `detect` (the
    language of an audio segment) and `transcribe` (the backend's answer for a
    segment and a language, None meaning "let Whisper decide"). */
module Whisper {
  import opened Common
  import opened Text
  import opened Sorting
  import opened Formats

  const SampleRate := 16000
  /** `int(0.5 * sample_rate)`: half a second of silence closes a segment. */
  const SilenceSamples := 8000
  /** `int(30 * sample_rate)`: a segment is closed at 30 seconds whatever. */
  const MaxSamples := 480000
  /** `int(1 * sample_rate)`: shorter segments are not closed on a pause. */
  const MinSamples := 16000
  /** Each read asks for 1600 16-bit samples (0.1 s). */
  const ReadSamples := 1600

  // ---------------------------------------------------------------------
  // Audio format selection
  // ---------------------------------------------------------------------

  /** `f.get('abr', 0) or 0`. */
  function Bitrate(f: Format): int {
    match f.abr
    case Some(a) => a
    case None => 0
  }

  /** Highest bitrate first, as ascending order of the negated bitrate. */
  function HighestBitrateFirst(f: Format): int {
    -Bitrate(f)
  }

  const CodecPreference: seq<string> := ["mp4a", "m4a", "opus", "vorbis"]

  /** The audio-only formats, highest bitrate first (a stable sort). */
  function AudioCandidates(formats: seq<Format>): (r: seq<Format>)
    ensures multiset(r) == multiset(Filter(formats, IsAudioOnly))
    ensures forall k :: 0 <= k < |r| ==> IsAudioOnly(r[k])
    ensures forall i, j :: 0 <= i < j < |r| ==> Bitrate(r[i]) >= Bitrate(r[j])
  {
    var audio := Filter(formats, IsAudioOnly);
    var r := SortBy(audio, HighestBitrateFirst);
    assert forall k :: 0 <= k < |r| ==> r[k] in multiset(audio);
    r
  }

  /** The sort is stable: the candidates are the audio-only formats in
      descending bitrate, those of any one bitrate in their order in the
      format list, so a tie goes to the earlier format. */
  lemma CandidatesKeepListOrder(formats: seq<Format>)
    ensures StablySorted(AudioCandidates(formats), Filter(formats, IsAudioOnly), HighestBitrateFirst)
  {
    SortByIsStable(Filter(formats, IsAudioOnly), HighestBitrateFirst);
  }

  /** The position of the first candidate whose codec names `pref`. */
  function FirstWith(cands: seq<Format>, pref: string, from: nat): (r: Option<nat>)
    requires from <= |cands|
    ensures r.Some? ==> from <= r.value < |cands| && Contains(AcodecText(cands[r.value]), pref)
    ensures r.Some? ==> forall k :: from <= k < r.value ==> !Contains(AcodecText(cands[k]), pref)
    ensures r.None? ==> forall k :: from <= k < |cands| ==> !Contains(AcodecText(cands[k]), pref)
    decreases |cands| - from
  {
    if from == |cands| then None
    else if Contains(AcodecText(cands[from]), pref) then Some(from)
    else FirstWith(cands, pref, from + 1)
  }

  /** Which preference matched and at which candidate. */
  datatype Pick = Pick(pref: nat, index: nat)

  /** The codec preference loop: the first preference, from position
      `from`, that any candidate matches, and the first candidate matching it. */
  function Preferred(cands: seq<Format>, from: nat): (r: Option<Pick>)
    requires from <= |CodecPreference|
    ensures r.Some? ==> from <= r.value.pref < |CodecPreference| && r.value.index < |cands|
    ensures r.Some? ==> Contains(AcodecText(cands[r.value.index]), CodecPreference[r.value.pref])
    ensures r.Some? ==> forall k :: 0 <= k < r.value.index ==> !Contains(AcodecText(cands[k]), CodecPreference[r.value.pref])
    ensures r.Some? ==> forall q, k :: from <= q < r.value.pref && 0 <= k < |cands| ==> !Contains(AcodecText(cands[k]), CodecPreference[q])
    ensures r.None? ==> forall q, k :: from <= q < |CodecPreference| && 0 <= k < |cands| ==> !Contains(AcodecText(cands[k]), CodecPreference[q])
    decreases |CodecPreference| - from
  {
    if from == |CodecPreference| then None
    else match FirstWith(cands, CodecPreference[from], 0)
      case Some(i) => Some(Pick(from, i))
      case None => Preferred(cands, from + 1)
  }

  /** The format that is streamed: the preferred candidate, else the one with
      the highest bitrate, else none. */
  function ChosenFormat(formats: seq<Format>): Option<Format> {
    var cands := AudioCandidates(formats);
    if cands == [] then None
    else match Preferred(cands, 0)
      case Some(p) => Some(cands[p.index])
      case None => Some(cands[0])
  }

  /** The chosen format has the highest bitrate among the audio-only formats
      whose codec names the preference that matched, and, when no preference
      matched, among all audio-only formats. */
  lemma ChosenHasTopBitrate(formats: seq<Format>, g: Format)
    requires g in formats && IsAudioOnly(g)
    ensures ChosenFormat(formats).Some?
    ensures var cands := AudioCandidates(formats);
      match Preferred(cands, 0)
      case Some(p) => Contains(AcodecText(g), CodecPreference[p.pref]) ==> Bitrate(g) <= Bitrate(ChosenFormat(formats).value)
      case None => Bitrate(g) <= Bitrate(ChosenFormat(formats).value)
  {
    var cands := AudioCandidates(formats);
    var j := CandidateIndex(formats, g);
    match Preferred(cands, 0)
    case Some(p) =>
      if Contains(AcodecText(g), CodecPreference[p.pref]) {
        assert !(j < p.index);
      }
    case None =>
  }

  /** Every audio-only format is among the candidates. */
  lemma CandidateIndex(formats: seq<Format>, g: Format) returns (j: nat)
    requires g in formats && IsAudioOnly(g)
    ensures j < |AudioCandidates(formats)| && AudioCandidates(formats)[j] == g
  {
    FilterKeeps(formats, IsAudioOnly, g);
    assert g in multiset(AudioCandidates(formats));
    j :| 0 <= j < |AudioCandidates(formats)| && AudioCandidates(formats)[j] == g;
  }

  /** The selection loops: filter, sort, then scan the preferences in order,
      stopping at the first candidate that names one. */
  method SelectAudioFormat(formats: seq<Format>) returns (best: Option<Format>)
    ensures best == ChosenFormat(formats)
    ensures best.None? <==> forall k :: 0 <= k < |formats| ==> !IsAudioOnly(formats[k])
    ensures best.Some? ==> IsAudioOnly(best.value) && best.value in formats
  {
    var audioFormats := AudioOnly(formats);
    AudioOnlyKept(formats);
    audioFormats := SortBy(audioFormats, HighestBitrateFirst);
    ghost var cands := AudioCandidates(formats);
    assert audioFormats == cands;

    best := PreferredFormat(audioFormats);
    if best.Some? {
      assert best.value in multiset(cands);
    }
  }

  /** The candidate the preference loop stops at, if any. */
  function PickedFormat(cands: seq<Format>): Option<Format> {
    match Preferred(cands, 0)
    case Some(p) => Some(cands[p.index])
    case None => None
  }

  /** The preference loop over the sorted candidates, then the fallback to
      the first of them. */
  method PreferredFormat(cands: seq<Format>) returns (best: Option<Format>)
    ensures best == if cands == [] then None
                    else match Preferred(cands, 0)
                      case Some(p) => Some(cands[p.index])
                      case None => Some(cands[0])
  {
    best := None;
    var p := 0;
    while p < |CodecPreference|
      invariant 0 <= p <= |CodecPreference|
      invariant best.None? ==> Preferred(cands, p) == Preferred(cands, 0)
      invariant best.Some? ==> best == PickedFormat(cands)
    {
      var found := FirstMatching(cands, CodecPreference[p]);
      if found.Some? {
        best := found;
        break;
      }
      p := p + 1;
    }
    if best.None? && cands != [] {
      best := Some(cands[0]);
    }
  }

  /** The filtering loop. */
  method AudioOnly(formats: seq<Format>) returns (audioFormats: seq<Format>)
    ensures audioFormats == Filter(formats, IsAudioOnly)
  {
    audioFormats := [];
    var i := 0;
    while i < |formats|
      invariant 0 <= i <= |formats|
      invariant audioFormats == Filter(formats[..i], IsAudioOnly)
    {
      assert formats[..i + 1][..i] == formats[..i];
      if formats[i].acodec != Some("none") && formats[i].vcodec == Some("none") {
        audioFormats := audioFormats + [formats[i]];
      }
      i := i + 1;
    }
    assert formats[..|formats|] == formats;
  }

  /** The inner loop: the first candidate whose codec names `pref`. */
  method FirstMatching(cands: seq<Format>, pref: string) returns (found: Option<Format>)
    ensures found == (match FirstWith(cands, pref, 0) case Some(i) => Some(cands[i]) case None => None)
  {
    var k := 0;
    while k < |cands|
      invariant 0 <= k <= |cands|
      invariant FirstWith(cands, pref, k) == FirstWith(cands, pref, 0)
    {
      if Contains(AcodecText(cands[k]), pref) {
        return Some(cands[k]);
      }
      k := k + 1;
    }
    return None;
  }

  /** There is an audio-only candidate exactly when some format is audio-only. */
  lemma {:induction false} AudioOnlyKept(formats: seq<Format>)
    ensures Filter(formats, IsAudioOnly) == [] <==> forall k :: 0 <= k < |formats| ==> !IsAudioOnly(formats[k])
    decreases |formats|
  {
    if formats != [] {
      var init := formats[..|formats| - 1];
      AudioOnlyKept(init);
      assert forall k :: 0 <= k < |init| ==> init[k] == formats[k];
    }
  }

  // ---------------------------------------------------------------------
  // The pause-bounded segmenter
  // ---------------------------------------------------------------------

  /** One read of the decoder: its samples and the outcome of the energy test. */
  datatype Frame = Frame(samples: seq<int>, silent: bool)

  /** The reads that carry audio: the decoder's output ends at the first
      empty read, where the loop stops reading. */
  function Reads(frames: seq<Frame>): (r: seq<Frame>)
    ensures |r| <= |frames| && r == frames[..|r|]
    ensures forall k :: 0 <= k < |r| ==> frames[k].samples != []
    ensures |r| < |frames| ==> frames[|r|].samples == []
    decreases |frames|
  {
    if frames == [] || frames[0].samples == [] then []
    else [frames[0]] + Reads(frames[1..])
  }

  /** The loop's test at position i, read against the reads that carry
      audio. */
  lemma ReadsAt(frames: seq<Frame>, i: nat)
    requires i <= |Reads(frames)|
    ensures (i < |frames| && frames[i].samples != []) <==> i < |Reads(frames)|
    ensures i < |Reads(frames)| ==> Reads(frames)[i] == frames[i]
  {
  }

  /** Why a segment was closed. */
  datatype Cut = Pause | MaxLength | EndOfStream

  datatype Segment = Segment(audio: seq<int>, cut: Cut)

  /** A silent frame adds its length to the run of silence; any other frame
      ends the run. */
  function SilenceAfter(silence: nat, f: Frame): nat {
    if f.silent then silence + |f.samples| else 0
  }

  /** The closing test once a frame has been added: half a second of silence
      with at least a second buffered, or 30 seconds buffered. */
  function CutAfter(buffer: seq<int>, silence: nat): Option<Cut> {
    if silence >= SilenceSamples && |buffer| >= MinSamples then Some(Pause)
    else if |buffer| >= MaxSamples then Some(MaxLength)
    else None
  }

  /** The segments the read loop closes, from the given buffer and silence
      run on: each closes on a pause or at the length limit, and at the end
      of the stream what is left is a segment only if it is a second long. */
  function Split(frames: seq<Frame>, buffer: seq<int>, silence: nat): (segs: seq<Segment>)
    ensures forall k :: 0 <= k < |segs| ==> |segs[k].audio| >= MinSamples
    ensures forall k :: 0 <= k < |segs| && segs[k].cut == MaxLength ==> |segs[k].audio| >= MaxSamples
    ensures forall k :: 0 <= k < |segs| && segs[k].cut == EndOfStream ==> k == |segs| - 1
    decreases |frames|
  {
    if frames == [] then
      if |buffer| >= MinSamples then [Segment(buffer, EndOfStream)] else []
    else
      var b := buffer + frames[0].samples;
      var s := SilenceAfter(silence, frames[0]);
      match CutAfter(b, s)
      case Some(c) => [Segment(b, c)] + Split(frames[1..], [], 0)
      case None => Split(frames[1..], b, s)
  }

  /** The samples dropped at the end of the stream: a buffer shorter than a
      second. */
  function Leftover(frames: seq<Frame>, buffer: seq<int>, silence: nat): (r: seq<int>)
    ensures |r| < MinSamples
    decreases |frames|
  {
    if frames == [] then
      if |buffer| >= MinSamples then [] else buffer
    else
      var b := buffer + frames[0].samples;
      var s := SilenceAfter(silence, frames[0]);
      match CutAfter(b, s)
      case Some(_) => Leftover(frames[1..], [], 0)
      case None => Leftover(frames[1..], b, s)
  }

  /** All the samples of the stream, in order. */
  function Samples(frames: seq<Frame>): seq<int>
    decreases |frames|
  {
    if frames == [] then [] else frames[0].samples + Samples(frames[1..])
  }

  /** The segments' audio laid end to end. */
  function Flatten(segs: seq<Segment>): seq<int>
    decreases |segs|
  {
    if segs == [] then [] else segs[0].audio + Flatten(segs[1..])
  }

  /** The segments tile the stream: laid end to end, followed by the dropped
      tail, they are exactly the samples read, in order. */
  lemma {:induction false} SplitCoversStream(frames: seq<Frame>, buffer: seq<int>, silence: nat)
    ensures Flatten(Split(frames, buffer, silence)) + Leftover(frames, buffer, silence) == buffer + Samples(frames)
    decreases |frames|
  {
    if frames == [] {
      if |buffer| >= MinSamples {
        assert Flatten([Segment(buffer, EndOfStream)]) == buffer + Flatten([]);
      }
    } else {
      var b := buffer + frames[0].samples;
      var s := SilenceAfter(silence, frames[0]);
      match CutAfter(b, s)
      case Some(c) =>
        SplitCoversStream(frames[1..], [], 0);
        CoversAfterCut(frames, buffer, silence, c);
      case None =>
        SplitCoversStream(frames[1..], b, s);
        CoversCarried(frames, buffer, silence);
    }
  }

  /** The step of SplitCoversStream for a read that closes a segment. */
  lemma CoversAfterCut(frames: seq<Frame>, buffer: seq<int>, silence: nat, c: Cut)
    requires frames != []
    requires CutAfter(buffer + frames[0].samples, SilenceAfter(silence, frames[0])) == Some(c)
    requires Flatten(Split(frames[1..], [], 0)) + Leftover(frames[1..], [], 0) == [] + Samples(frames[1..])
    ensures Flatten(Split(frames, buffer, silence)) + Leftover(frames, buffer, silence) == buffer + Samples(frames)
  {
    var seg := Segment(buffer + frames[0].samples, c);
    var rest := Split(frames[1..], [], 0);
    assert Split(frames, buffer, silence) == [seg] + rest;
    assert Leftover(frames, buffer, silence) == Leftover(frames[1..], [], 0);
    FlattenCons(seg, rest);
    SamplesCons(frames);
    AppendRegroup(buffer, frames[0].samples, Flatten(rest), Leftover(frames[1..], [], 0), Samples(frames[1..]));
  }

  /** The step of SplitCoversStream for a read that is carried over. */
  lemma CoversCarried(frames: seq<Frame>, buffer: seq<int>, silence: nat)
    requires frames != []
    requires CutAfter(buffer + frames[0].samples, SilenceAfter(silence, frames[0])).None?
    requires var b := buffer + frames[0].samples; var s := SilenceAfter(silence, frames[0]);
      Flatten(Split(frames[1..], b, s)) + Leftover(frames[1..], b, s) == b + Samples(frames[1..])
    ensures Flatten(Split(frames, buffer, silence)) + Leftover(frames, buffer, silence) == buffer + Samples(frames)
  {
    var b := buffer + frames[0].samples;
    var s := SilenceAfter(silence, frames[0]);
    assert Split(frames, buffer, silence) == Split(frames[1..], b, s);
    assert Leftover(frames, buffer, silence) == Leftover(frames[1..], b, s);
    SamplesCons(frames);
    AppendAssoc(buffer, frames[0].samples, Samples(frames[1..]));
  }

  lemma FlattenCons(seg: Segment, rest: seq<Segment>)
    ensures Flatten([seg] + rest) == seg.audio + Flatten(rest)
  {
    assert ([seg] + rest)[1..] == rest;
  }

  lemma SamplesCons(frames: seq<Frame>)
    requires frames != []
    ensures Samples(frames) == frames[0].samples + Samples(frames[1..])
  {
  }

  lemma AppendAssoc<T>(a: seq<T>, b: seq<T>, c: seq<T>)
    ensures (a + b) + c == a + (b + c)
  {
  }

  /** Regrouping the samples of a closed segment, the rest of the segments
      and the dropped tail. */
  lemma AppendRegroup(buffer: seq<int>, head: seq<int>, flat: seq<int>, tail: seq<int>, after: seq<int>)
    requires flat + tail == [] + after
    ensures (buffer + head) + flat + tail == buffer + (head + after)
  {
    assert [] + after == after;
  }

  /** With reads of at most 1600 samples and a buffer under 30 seconds to
      start with, no segment reaches 30 seconds plus one read. */
  lemma {:induction false} SplitBounded(frames: seq<Frame>, buffer: seq<int>, silence: nat)
    requires |buffer| < MaxSamples
    requires forall k :: 0 <= k < |frames| ==> |frames[k].samples| <= ReadSamples
    ensures forall k :: 0 <= k < |Split(frames, buffer, silence)| ==>
              |Split(frames, buffer, silence)[k].audio| < MaxSamples + ReadSamples
    decreases |frames|
  {
    if frames != [] {
      var b := buffer + frames[0].samples;
      var s := SilenceAfter(silence, frames[0]);
      assert |b| < MaxSamples + ReadSamples;
      match CutAfter(b, s)
      case Some(c) =>
        SplitBounded(frames[1..], [], 0);
        var rest := Split(frames[1..], [], 0);
        assert forall k :: 1 <= k < |[Segment(b, c)] + rest| ==> ([Segment(b, c)] + rest)[k] == rest[k - 1];
      case None =>
        SplitBounded(frames[1..], b, s);
    }
  }

  // ---------------------------------------------------------------------
  // Language pinning and the yielded events
  // ---------------------------------------------------------------------

  /** The backend's answer for one segment. */
  datatype Transcription = Transcription(success: bool, text: string)

  /** What the generator yields. */
  datatype Event =
    | Chunk(text: string, chunk: nat, language: string)
    | Final(transcript: string, language: string, chunksProcessed: nat)
    | Failure(error: string)

  /** `detected_language if detected_language else language` (an empty
      detection counts as none). */
  function UseLanguage(detected: string, language: string): string {
    if detected != "" then detected else language
  }

  /** `'auto'` is handed to the backend as None. */
  function BackendLanguage(use: string): (r: Option<string>)
    ensures r.None? <==> use == "auto"
    ensures r.Some? ==> r.value == use
  {
    if use != "auto" then Some(use) else None
  }

  /** The language detected for a run: only for `'auto'`, and only on the
      first segment ("" while none is detected). */
  function Detected(segs: seq<Segment>, language: string, detect: seq<int> -> string): string {
    if language == "auto" && |segs| >= 1 then detect(segs[0].audio) else ""
  }

  /** A backend answer is used when it succeeded with a text that is not
      blank. */
  predicate Accepted(r: Transcription) {
    r.success && r.text != "" && Strip(r.text) != ""
  }

  /** A text of Unicode whitespace only, such as an ideographic space and a
      no-break space, is blank: no event is sent for it. */
  lemma UnicodeBlankRejected(success: bool)
    ensures !Accepted(Transcription(success, "\U{3000}\U{A0}"))
  {
    StripEmptyIffBlank("\U{3000}\U{A0}");
  }

  /** The backend's answer for one segment, in the run's language. */
  function Outcome(seg: Segment, detected: string, language: string,
                   transcribe: (seq<int>, Option<string>) -> Transcription): Transcription
  {
    transcribe(seg.audio, BackendLanguage(UseLanguage(detected, language)))
  }

  /** The stripped texts of the accepted segments, in order. */
  function Texts(segs: seq<Segment>, detected: string, language: string,
                 transcribe: (seq<int>, Option<string>) -> Transcription): seq<string>
    decreases |segs|
  {
    if segs == [] then []
    else
      var o := Outcome(segs[|segs| - 1], detected, language, transcribe);
      Texts(segs[..|segs| - 1], detected, language, transcribe) + (if Accepted(o) then [Strip(o.text)] else [])
  }

  /** No kept text is blank, and there is at most one per segment. */
  lemma {:induction false} TextsNonBlank(segs: seq<Segment>, detected: string, language: string,
                                         transcribe: (seq<int>, Option<string>) -> Transcription)
    ensures |Texts(segs, detected, language, transcribe)| <= |segs|
    ensures forall k :: 0 <= k < |Texts(segs, detected, language, transcribe)| ==> Texts(segs, detected, language, transcribe)[k] != ""
    decreases |segs|
  {
    if segs != [] {
      TextsNonBlank(segs[..|segs| - 1], detected, language, transcribe);
    }
  }

  /** The chunk events of a run: one per accepted segment, numbered by the
      segment's position (counting from 1). */
  function ChunkEvents(segs: seq<Segment>, detected: string, language: string,
                       transcribe: (seq<int>, Option<string>) -> Transcription): seq<Event>
    decreases |segs|
  {
    if segs == [] then []
    else
      var n := |segs|;
      var o := Outcome(segs[n - 1], detected, language, transcribe);
      ChunkEvents(segs[..n - 1], detected, language, transcribe)
      + (if Accepted(o) then [Chunk(Strip(o.text), n, UseLanguage(detected, language))] else [])
  }

  /** Every chunk event is in the pinned language and carries a segment
      position; the positions strictly increase. */
  lemma {:induction false} ChunkEventsNumbered(segs: seq<Segment>, detected: string, language: string,
                                               transcribe: (seq<int>, Option<string>) -> Transcription)
    ensures forall k :: 0 <= k < |ChunkEvents(segs, detected, language, transcribe)| ==>
              var e := ChunkEvents(segs, detected, language, transcribe)[k];
              e.Chunk? && e.language == UseLanguage(detected, language) && 1 <= e.chunk <= |segs|
    ensures forall j, k :: 0 <= j < k < |ChunkEvents(segs, detected, language, transcribe)| ==>
              ChunkEvents(segs, detected, language, transcribe)[j].Chunk?
              && ChunkEvents(segs, detected, language, transcribe)[k].Chunk?
              && ChunkEvents(segs, detected, language, transcribe)[j].chunk < ChunkEvents(segs, detected, language, transcribe)[k].chunk
    decreases |segs|
  {
    if segs != [] {
      var n := |segs|;
      var init := segs[..n - 1];
      var o := Outcome(segs[n - 1], detected, language, transcribe);
      var ri := ChunkEvents(init, detected, language, transcribe);
      var tail := if Accepted(o) then [Chunk(Strip(o.text), n, UseLanguage(detected, language))] else [];
      ChunkEventsNumbered(init, detected, language, transcribe);
      assert ChunkEvents(segs, detected, language, transcribe) == ri + tail;
      NumberedAppend(ri, tail, n, UseLanguage(detected, language));
    }
  }

  /** Appending at most one event for segment n to events numbered below n
      keeps the numbering strictly increasing. */
  lemma NumberedAppend(ri: seq<Event>, tail: seq<Event>, n: nat, lang: string)
    requires n >= 1
    requires forall k :: 0 <= k < |ri| ==> ri[k].Chunk? && ri[k].language == lang && 1 <= ri[k].chunk <= n - 1
    requires forall j, k :: 0 <= j < k < |ri| ==> ri[j].Chunk? && ri[k].Chunk? && ri[j].chunk < ri[k].chunk
    requires tail == [] || (|tail| == 1 && tail[0].Chunk? && tail[0].chunk == n && tail[0].language == lang)
    ensures forall k :: 0 <= k < |ri + tail| ==>
              (ri + tail)[k].Chunk? && (ri + tail)[k].language == lang && 1 <= (ri + tail)[k].chunk <= n
    ensures forall j, k :: 0 <= j < k < |ri + tail| ==>
              (ri + tail)[j].Chunk? && (ri + tail)[k].Chunk? && (ri + tail)[j].chunk < (ri + tail)[k].chunk
  {
    assert forall k :: 0 <= k < |ri| ==> (ri + tail)[k] == ri[k];
  }

  /** A chunk event names a segment whose backend answer was accepted. */
  lemma {:induction false} ChunkEventsAccepted(segs: seq<Segment>, detected: string, language: string,
                                               transcribe: (seq<int>, Option<string>) -> Transcription, k: nat)
    requires k < |ChunkEvents(segs, detected, language, transcribe)|
    ensures ChunkEvents(segs, detected, language, transcribe)[k].Chunk?
    ensures 1 <= ChunkEvents(segs, detected, language, transcribe)[k].chunk <= |segs|
    ensures Accepted(Outcome(segs[ChunkEvents(segs, detected, language, transcribe)[k].chunk - 1], detected, language, transcribe))
    decreases |segs|
  {
    ChunkEventsNumbered(segs, detected, language, transcribe);
    var n := |segs|;
    var init := segs[..n - 1];
    var o := Outcome(segs[n - 1], detected, language, transcribe);
    var ri := ChunkEvents(init, detected, language, transcribe);
    var tail := if Accepted(o) then [Chunk(Strip(o.text), n, UseLanguage(detected, language))] else [];
    assert ChunkEvents(segs, detected, language, transcribe) == ri + tail;
    if k < |ri| {
      assert (ri + tail)[k] == ri[k];
      ChunkEventsAccepted(init, detected, language, transcribe, k);
      assert init[ri[k].chunk - 1] == segs[ri[k].chunk - 1];
      assert Accepted(Outcome(segs[ri[k].chunk - 1], detected, language, transcribe));
    } else {
      assert Accepted(o) && (ri + tail)[k] == tail[0] && tail[0].chunk == n;
    }
  }

  /** The chunk events carry the texts of the transcript, in order. */
  lemma {:induction false} EventsCarryTexts(segs: seq<Segment>, detected: string, language: string,
                                            transcribe: (seq<int>, Option<string>) -> Transcription)
    ensures EventTexts(ChunkEvents(segs, detected, language, transcribe)) == Texts(segs, detected, language, transcribe)
    decreases |segs|
  {
    if segs != [] {
      var init := segs[..|segs| - 1];
      EventsCarryTexts(init, detected, language, transcribe);
      var r := ChunkEvents(segs, detected, language, transcribe);
      var ri := ChunkEvents(init, detected, language, transcribe);
      var o := Outcome(segs[|segs| - 1], detected, language, transcribe);
      if Accepted(o) {
        assert r[..|r| - 1] == ri;
      } else {
        assert r == ri;
      }
    }
  }

  /** No accepted segment is left without its event. */
  lemma AcceptedSegmentsReported(segs: seq<Segment>, detected: string, language: string,
                                 transcribe: (seq<int>, Option<string>) -> Transcription, n: nat)
    requires 1 <= n <= |segs|
    requires Accepted(Outcome(segs[n - 1], detected, language, transcribe))
    ensures exists k :: 0 <= k < |ChunkEvents(segs, detected, language, transcribe)|
                        && ChunkEvents(segs, detected, language, transcribe)[k] == Chunk(Strip(Outcome(segs[n - 1], detected, language, transcribe).text), n, UseLanguage(detected, language))
  {
    var k := AcceptedSegmentEvent(segs, detected, language, transcribe, n);
  }

  /** The position of the event of the accepted segment n. */
  lemma {:induction false} AcceptedSegmentEvent(segs: seq<Segment>, detected: string, language: string,
                                                transcribe: (seq<int>, Option<string>) -> Transcription, n: nat)
    returns (k: nat)
    requires 1 <= n <= |segs|
    requires Accepted(Outcome(segs[n - 1], detected, language, transcribe))
    ensures k < |ChunkEvents(segs, detected, language, transcribe)|
    ensures ChunkEvents(segs, detected, language, transcribe)[k] == Chunk(Strip(Outcome(segs[n - 1], detected, language, transcribe).text), n, UseLanguage(detected, language))
    decreases |segs|
  {
    var r := ChunkEvents(segs, detected, language, transcribe);
    var init := segs[..|segs| - 1];
    var ri := ChunkEvents(init, detected, language, transcribe);
    var o := Outcome(segs[|segs| - 1], detected, language, transcribe);
    var tail := if Accepted(o) then [Chunk(Strip(o.text), |segs|, UseLanguage(detected, language))] else [];
    assert r == ri + tail;
    if n == |segs| {
      k := |ri|;
      AppendIndex(ri, tail, k);
    } else {
      assert segs[n - 1] == init[n - 1];
      k := AcceptedSegmentEvent(init, detected, language, transcribe, n);
      AppendIndex(ri, tail, k);
    }
  }

  /** Where the k-th element of a concatenation comes from. */
  lemma AppendIndex<T>(a: seq<T>, b: seq<T>, k: nat)
    requires k < |a| + |b|
    ensures k < |a + b|
    ensures (a + b)[k] == if k < |a| then a[k] else b[k - |a|]
  {
  }

  /** Everything the generator yields once a format was found: the chunk
      events, then the final event with the space-joined transcript, the
      language and the number of segments processed (accepted or not). */
  function StreamEvents(frames: seq<Frame>, language: string, detect: seq<int> -> string,
                        transcribe: (seq<int>, Option<string>) -> Transcription): (r: seq<Event>)
    ensures |r| >= 1 && r[|r| - 1].Final?
    ensures forall k :: 0 <= k < |r| - 1 ==> r[k].Chunk?
  {
    var segs := Split(Reads(frames), [], 0);
    var det := Detected(segs, language, detect);
    ChunkEventsNumbered(segs, det, language, transcribe);
    ChunkEvents(segs, det, language, transcribe)
    + [Final(Join(" ", Texts(segs, det, language, transcribe)), UseLanguage(det, language), |segs|)]
  }

  /** The texts of the chunk events. */
  function EventTexts(events: seq<Event>): (r: seq<string>)
    ensures |r| == |events|
    ensures forall k :: 0 <= k < |events| ==> r[k] == (if events[k].Chunk? then events[k].text else "")
    decreases |events|
  {
    if events == [] then []
    else EventTexts(events[..|events| - 1])
         + [var e := events[|events| - 1]; if e.Chunk? then e.text else ""]
  }

  /** The final transcript is the space-join of the texts of the chunk events
      yielded before it, and it counts every segment closed. */
  lemma FinalJoinsChunks(frames: seq<Frame>, language: string, detect: seq<int> -> string,
                         transcribe: (seq<int>, Option<string>) -> Transcription)
    ensures var r := StreamEvents(frames, language, detect, transcribe);
            r[|r| - 1].transcript == Join(" ", EventTexts(r[..|r| - 1]))
            && r[|r| - 1].chunksProcessed == |Split(Reads(frames), [], 0)|
  {
    var segs := Split(Reads(frames), [], 0);
    var det := Detected(segs, language, detect);
    var r := StreamEvents(frames, language, detect, transcribe);
    var chunks := ChunkEvents(segs, det, language, transcribe);
    assert r[..|r| - 1] == chunks;
    EventsCarryTexts(segs, det, language, transcribe);
  }

  /** The per-segment work shared by the pause branch and the end-of-stream
      branch: count the segment, detect the language on segment 1 when
      asked to, transcribe, and keep a non-blank text.  With `done` the
      segments closed before, the counters, texts and events afterwards are
      those of the run with this segment appended. */
  method ProcessSegment(seg: Segment, ghost done: seq<Segment>, chunkCount: nat, detected: string,
                        transcripts: seq<string>, events: seq<Event>, language: string,
                        detect: seq<int> -> string, transcribe: (seq<int>, Option<string>) -> Transcription)
    returns (count: nat, newDetected: string, newTranscripts: seq<string>, newEvents: seq<Event>, ghost detectCalled: bool)
    requires chunkCount == |done| && detected == Detected(done, language, detect)
    requires transcripts == Texts(done, detected, language, transcribe)
    requires events == ChunkEvents(done, detected, language, transcribe)
    ensures count == |done + [seg]| && newDetected == Detected(done + [seg], language, detect)
    ensures newTranscripts == Texts(done + [seg], newDetected, language, transcribe)
    ensures newEvents == ChunkEvents(done + [seg], newDetected, language, transcribe)
    ensures detectCalled <==> done == [] && language == "auto"
  {
    count := chunkCount + 1;
    newDetected := detected;
    detectCalled := false;
    if count == 1 && language == "auto" {
      newDetected := detect(seg.audio);
      detectCalled := true;
    }
    var use := if newDetected != "" then newDetected else language;
    var result := transcribe(seg.audio, if use != "auto" then Some(use) else None);
    newTranscripts, newEvents := transcripts, events;
    if result.success && result.text != "" {
      var text := Strip(result.text);
      if text != "" {
        newTranscripts := transcripts + [text];
        newEvents := events + [Chunk(text, count, use)];
      }
    }
    SegmentAppended(done, seg, language, detect, transcribe);
  }

  /** Closing one more segment extends the texts and the events by that
      segment's, in the language pinned on the first segment. */
  lemma SegmentAppended(done: seq<Segment>, seg: Segment, language: string, detect: seq<int> -> string,
                        transcribe: (seq<int>, Option<string>) -> Transcription)
    ensures var det := Detected(done + [seg], language, detect);
            var o := Outcome(seg, det, language, transcribe);
            Detected(done + [seg], language, detect) == (if done == [] && language == "auto" then detect(seg.audio) else Detected(done, language, detect))
            && Texts(done + [seg], det, language, transcribe)
               == Texts(done, Detected(done, language, detect), language, transcribe) + (if Accepted(o) then [Strip(o.text)] else [])
            && ChunkEvents(done + [seg], det, language, transcribe)
               == ChunkEvents(done, Detected(done, language, detect), language, transcribe)
                  + (if Accepted(o) then [Chunk(Strip(o.text), |done| + 1, UseLanguage(det, language))] else [])
  {
    var all := done + [seg];
    var det := Detected(all, language, detect);
    assert all[..|all| - 1] == done && all[|all| - 1] == seg;
    assert Texts(all, det, language, transcribe) == Texts(done, det, language, transcribe)
      + (var o := Outcome(seg, det, language, transcribe); if Accepted(o) then [Strip(o.text)] else []);
    assert ChunkEvents(all, det, language, transcribe) == ChunkEvents(done, det, language, transcribe)
      + (var o := Outcome(seg, det, language, transcribe);
         if Accepted(o) then [Chunk(Strip(o.text), |done| + 1, UseLanguage(det, language))] else []);
    if done != [] {
      assert all[0] == done[0];
      assert det == Detected(done, language, detect);
    } else {
      assert Texts(done, det, language, transcribe) == [] == Texts(done, Detected(done, language, detect), language, transcribe);
      assert ChunkEvents(done, det, language, transcribe) == [] == ChunkEvents(done, Detected(done, language, detect), language, transcribe);
    }
  }

  /** One read of the loop, as `Split` sees it, when the read passes the
      closing test: its segment, then the segments from an empty buffer. */
  lemma SplitStepCut(frames: seq<Frame>, i: nat, buffer: seq<int>, silence: nat, c: Cut)
    requires i < |frames|
    requires CutAfter(buffer + frames[i].samples, SilenceAfter(silence, frames[i])) == Some(c)
    ensures Split(frames[i..], buffer, silence)
            == [Segment(buffer + frames[i].samples, c)] + Split(frames[i + 1..], [], 0)
  {
    assert frames[i..][1..] == frames[i + 1..];
  }

  /** One read of the loop, as `Split` sees it, when the read does not close
      a segment: the buffer and the silence run are carried forward. */
  lemma SplitStepCarry(frames: seq<Frame>, i: nat, buffer: seq<int>, silence: nat)
    requires i < |frames|
    requires CutAfter(buffer + frames[i].samples, SilenceAfter(silence, frames[i])).None?
    ensures Split(frames[i..], buffer, silence)
            == Split(frames[i + 1..], buffer + frames[i].samples, SilenceAfter(silence, frames[i]))
  {
    assert frames[i..][1..] == frames[i + 1..];
  }

  /** The read loop of the streaming generator, from the first read to the
      final event.  At every read the buffer holds less than 30 seconds, and
      the language is detected at most once. */
  method StreamTranscribe(frames: seq<Frame>, language: string, detect: seq<int> -> string,
                          transcribe: (seq<int>, Option<string>) -> Transcription)
    returns (events: seq<Event>, ghost detections: nat)
    ensures events == StreamEvents(frames, language, detect, transcribe)
    ensures detections == if language == "auto" && |Split(Reads(frames), [], 0)| >= 1 then 1 else 0
  {
    var buffer, silence, chunkCount, detected, transcripts;
    ghost var done;
    buffer, silence, chunkCount, detected, transcripts, events, done, detections :=
      ReadUntilEnd(frames, language, detect, transcribe);
    events, detections := FinishStream(frames, done, buffer, silence, chunkCount, detected, transcripts, events,
                                      language, detect, transcribe, detections);
  }

  /** The reads up to the first empty one: what is left afterwards is the
      buffer not yet closed into a segment. */
  method ReadUntilEnd(frames: seq<Frame>, language: string, detect: seq<int> -> string,
                      transcribe: (seq<int>, Option<string>) -> Transcription)
    returns (buffer: seq<int>, silence: nat, chunkCount: nat, detected: string,
             transcripts: seq<string>, events: seq<Event>, ghost done: seq<Segment>, ghost detections: nat)
    ensures done + Split([], buffer, silence) == Split(Reads(frames), [], 0)
    ensures chunkCount == |done| && detected == Detected(done, language, detect)
    ensures detections == if language == "auto" && |done| >= 1 then 1 else 0
    ensures transcripts == Texts(done, detected, language, transcribe)
    ensures events == ChunkEvents(done, detected, language, transcribe)
  {
    ghost var stream := Reads(frames);
    done := [];
    transcripts := [];
    detected := "";
    chunkCount := 0;
    buffer := [];
    silence := 0;
    events := [];
    detections := 0;
    var i := 0;
    while i < |frames| && frames[i].samples != []
      invariant 0 <= i <= |stream|
      invariant |buffer| < MaxSamples
      invariant done + Split(stream[i..], buffer, silence) == Split(stream, [], 0)
      invariant chunkCount == |done| && detected == Detected(done, language, detect)
      invariant detections == if language == "auto" && |done| >= 1 then 1 else 0
      invariant transcripts == Texts(done, detected, language, transcribe)
      invariant events == ChunkEvents(done, detected, language, transcribe)
    {
      ReadsAt(frames, i);
      buffer, silence, chunkCount, detected, transcripts, events, done, detections :=
        ReadFrame(stream, i, frames[i], buffer, silence, chunkCount, detected, transcripts, events, done, detections,
                  language, detect, transcribe);
      i := i + 1;
    }
    ReadsAt(frames, i);
    assert stream[i..] == [];
  }

  /** One turn of the read loop: add the frame to the buffer, update the
      silence run, and close a segment when the test says so, emptying the
      buffer and the silence run. */
  method ReadFrame(ghost frames: seq<Frame>, i: nat, f: Frame, buffer: seq<int>, silence: nat,
                   chunkCount: nat, detected: string, transcripts: seq<string>, events: seq<Event>,
                   ghost done: seq<Segment>, ghost detections: nat,
                   language: string, detect: seq<int> -> string,
                   transcribe: (seq<int>, Option<string>) -> Transcription)
    returns (buffer': seq<int>, silence': nat, chunkCount': nat, detected': string,
             transcripts': seq<string>, events': seq<Event>, ghost done': seq<Segment>, ghost detections': nat)
    requires i < |frames| && f == frames[i]
    requires chunkCount == |done| && detected == Detected(done, language, detect)
    requires detections == if language == "auto" && |done| >= 1 then 1 else 0
    requires transcripts == Texts(done, detected, language, transcribe)
    requires events == ChunkEvents(done, detected, language, transcribe)
    ensures |buffer'| < MaxSamples
    ensures done' + Split(frames[i + 1..], buffer', silence') == done + Split(frames[i..], buffer, silence)
    ensures chunkCount' == |done'| && detected' == Detected(done', language, detect)
    ensures detections' == if language == "auto" && |done'| >= 1 then 1 else 0
    ensures transcripts' == Texts(done', detected', language, transcribe)
    ensures events' == ChunkEvents(done', detected', language, transcribe)
  {
    buffer', silence' := buffer + f.samples, if f.silent then silence + |f.samples| else 0;
    chunkCount', detected', transcripts', events', done', detections' :=
      chunkCount, detected, transcripts, events, done, detections;
    var cut := CutAfter(buffer', silence');
    if cut.Some? {
      var seg := Segment(buffer', cut.value);
      ghost var called;
      chunkCount', detected', transcripts', events', called :=
        ProcessSegment(seg, done, chunkCount, detected, transcripts, events, language, detect, transcribe);
      if called {
        detections' := detections' + 1;
      }
      done' := done + [seg];
      SplitStepCut(frames, i, buffer, silence, cut.value);
      AppendAssoc(done, [seg], Split(frames[i + 1..], [], 0));
      assert done' + Split(frames[i + 1..], [], 0) == done + Split(frames[i..], buffer, silence);
      buffer', silence' := [], 0;
    } else {
      SplitStepCarry(frames, i, buffer, silence);
      assert Split(frames[i + 1..], buffer', silence') == Split(frames[i..], buffer, silence);
    }
  }

  /** The end of the stream: a buffer of at least a second is one last
      segment, then the final event. */
  method FinishStream(ghost frames: seq<Frame>, ghost done: seq<Segment>, buffer: seq<int>, silence: nat,
                      chunkCount: nat, detected: string, transcripts: seq<string>, events: seq<Event>,
                     language: string, detect: seq<int> -> string,
                     transcribe: (seq<int>, Option<string>) -> Transcription, ghost detections: nat)
    returns (allEvents: seq<Event>, ghost allDetections: nat)
    requires done + Split([], buffer, silence) == Split(Reads(frames), [], 0)
    requires chunkCount == |done| && detected == Detected(done, language, detect)
    requires detections == if language == "auto" && |done| >= 1 then 1 else 0
    requires transcripts == Texts(done, detected, language, transcribe)
    requires events == ChunkEvents(done, detected, language, transcribe)
    ensures allEvents == StreamEvents(frames, language, detect, transcribe)
    ensures allDetections == if language == "auto" && |Split(Reads(frames), [], 0)| >= 1 then 1 else 0
  {
    var count, lang, texts := chunkCount, detected, transcripts;
    allEvents, allDetections := events, detections;
    ghost var segs := done;
    if buffer != [] && |buffer| >= MinSamples {
      ghost var called;
      count, lang, texts, allEvents, called :=
        ProcessSegment(Segment(buffer, EndOfStream), done, chunkCount, detected, transcripts, events, language, detect, transcribe);
      if called {
        allDetections := allDetections + 1;
      }
      segs := done + [Segment(buffer, EndOfStream)];
    }
    assert segs == Split(Reads(frames), [], 0);
    allEvents := allEvents + [Final(Join(" ", texts), if lang != "" then lang else language, count)];
  }

  /** `transcribe_from_url_streaming_whisper_generator`: no audio-only
      format ends the run with an error; otherwise the stream's events. */
  method TranscribeFromUrlStreaming(formats: seq<Format>, frames: seq<Frame>, language: string,
                                    detect: seq<int> -> string,
                                    transcribe: (seq<int>, Option<string>) -> Transcription)
    returns (events: seq<Event>)
    ensures ChosenFormat(formats).None? ==> events == [Failure("No audio stream found")]
    ensures ChosenFormat(formats).Some? ==> events == StreamEvents(frames, language, detect, transcribe)
  {
    var best := SelectAudioFormat(formats);
    if best.None? {
      return [Failure("No audio stream found")];
    }
    ghost var detections;
    events, detections := StreamTranscribe(frames, language, detect, transcribe);
  }

  /** What `transcribe_from_url_streaming_whisper` (the generator's non-streaming twin)
      answers: the same loop, returning only what the generator's final event
      carries, once the check of the decoder's exit status does what it is
      evidently meant to (log the decoder's error output and go on). */
  function UrlAnswer(formats: seq<Format>, frames: seq<Frame>, language: string,
                     detect: seq<int> -> string,
                     transcribe: (seq<int>, Option<string>) -> Transcription): (r: Event)
    ensures ChosenFormat(formats).None? <==> r == Failure("No audio stream found")
    ensures ChosenFormat(formats).Some? ==>
      r.Final? && r.chunksProcessed == |Split(Reads(frames), [], 0)|
      && r.transcript == Join(" ", Texts(Split(Reads(frames), [], 0), Detected(Split(Reads(frames), [], 0), language, detect), language, transcribe))
  {
    if ChosenFormat(formats).None? then Failure("No audio stream found")
    else
      var r := StreamEvents(frames, language, detect, transcribe);
      r[|r| - 1]
  }

  /** The message of the exception raised by reading the error output of a
      decoder started with its error output discarded. */
  const StderrUnreadable := "Streaming transcription failed: 'NoneType' object has no attribute 'read'"

  /** `transcribe_from_url_streaming_whisper` as written: the decoder runs with its
      error output discarded, so a non-zero exit status makes the check read
      from a missing pipe, and the exception handler answers a failure. */
  function UrlAnswerAsWritten(formats: seq<Format>, frames: seq<Frame>, language: string,
                              detect: seq<int> -> string,
                              transcribe: (seq<int>, Option<string>) -> Transcription,
                              exitStatus: int): (r: Event)
    ensures exitStatus == 0 ==> r == UrlAnswer(formats, frames, language, detect, transcribe)
    ensures ChosenFormat(formats).Some? && exitStatus != 0 ==> r == Failure(StderrUnreadable)
  {
    if ChosenFormat(formats).Some? && exitStatus != 0 then Failure(StderrUnreadable)
    else UrlAnswer(formats, frames, language, detect, transcribe)
  }

  /** Whenever a stream was found and the decoder exits with a non-zero
      status, the code as written discards the transcript it collected: it
      answers a failure where the run had a final result. */
  lemma NonZeroExitLosesTranscript(formats: seq<Format>, frames: seq<Frame>, language: string,
                                   detect: seq<int> -> string,
                                   transcribe: (seq<int>, Option<string>) -> Transcription,
                                   exitStatus: int)
    requires ChosenFormat(formats).Some? && exitStatus != 0
    ensures UrlAnswer(formats, frames, language, detect, transcribe).Final?
    ensures UrlAnswerAsWritten(formats, frames, language, detect, transcribe, exitStatus).Failure?
    ensures UrlAnswerAsWritten(formats, frames, language, detect, transcribe, exitStatus)
            != UrlAnswer(formats, frames, language, detect, transcribe)
  {
  }

  /** `transcribe_from_url_streaming_whisper`, with the exit-status check as
      intended. */
  method TranscribeFromUrl(formats: seq<Format>, frames: seq<Frame>, language: string,
                           detect: seq<int> -> string,
                           transcribe: (seq<int>, Option<string>) -> Transcription)
    returns (result: Event)
    ensures result == UrlAnswer(formats, frames, language, detect, transcribe)
  {
    var events := TranscribeFromUrlStreaming(formats, frames, language, detect, transcribe);
    result := events[|events| - 1];
  }

  // ---------------------------------------------------------------------
  // `WhisperTranscriber.transcribe_streaming`
  // ---------------------------------------------------------------------

  /** The transcriber's answer: success, text and the language it reports. */
  datatype Answer = Answer(success: bool, text: string, language: string)

  /** One yielded result of `transcribe_streaming`. */
  datatype TimedChunk = TimedChunk(chunk: nat, text: string, language: string, timestamp: int)

  /** The language detected on the first chunk when the caller asked for
      `'auto'` or gave none. */
  function FirstDetection(chunks: seq<seq<int>>, language: Option<string>, detect: seq<int> -> string): Option<string> {
    if |chunks| >= 1 && (language == Some("auto") || language == None) then Some(detect(chunks[0])) else None
  }

  /** `detected_language if detected_language else language`. */
  function ChunkLanguage(detected: Option<string>, language: Option<string>): Option<string> {
    if detected.Some? && detected.value != "" then detected else language
  }

  /** The result carries the text and language the transcriber answered. */
  predicate Carries(t: TimedChunk, a: Answer) {
    t.text == a.text && t.language == a.language
  }

  /** Some result is numbered `n`. */
  predicate Reported(r: seq<TimedChunk>, n: nat) {
    exists k :: 0 <= k < |r| && r[k].chunk == n
  }

  /** The results for the chunks: one per successful chunk, numbered from 1
      by input position, stamped `(number - 1) * chunk_length` seconds and
      carrying the transcriber's text and language. */
  function TimedChunks(chunks: seq<seq<int>>, detected: Option<string>, language: Option<string>,
                       chunkLength: int, answer: (seq<int>, Option<string>) -> Answer): (r: seq<TimedChunk>)
    ensures |r| <= |chunks|
    ensures forall k :: 0 <= k < |r| ==>
              1 <= r[k].chunk <= |chunks|
              && r[k].timestamp == (r[k].chunk - 1) * chunkLength
              && answer(chunks[r[k].chunk - 1], ChunkLanguage(detected, language)).success
              && Carries(r[k], answer(chunks[r[k].chunk - 1], ChunkLanguage(detected, language)))
    ensures forall j, k :: 0 <= j < k < |r| ==> r[j].chunk < r[k].chunk
    decreases |chunks|
  {
    if chunks == [] then []
    else
      var n := |chunks|;
      var a := answer(chunks[n - 1], ChunkLanguage(detected, language));
      var init := chunks[..n - 1];
      assert forall k :: 0 <= k < n - 1 ==> init[k] == chunks[k];
      TimedChunks(init, detected, language, chunkLength, answer)
      + (if a.success then [TimedChunk(n, a.text, a.language, (n - 1) * chunkLength)] else [])
  }

  /** No successful chunk goes unreported: chunk `i` (from 0) answered with
      success has the result numbered `i + 1`. */
  lemma {:induction false} TimedChunksComplete(chunks: seq<seq<int>>, detected: Option<string>, language: Option<string>,
                                               chunkLength: int, answer: (seq<int>, Option<string>) -> Answer, i: nat)
    requires i < |chunks| && answer(chunks[i], ChunkLanguage(detected, language)).success
    ensures Reported(TimedChunks(chunks, detected, language, chunkLength, answer), i + 1)
    decreases |chunks|
  {
    var n := |chunks|;
    var init := chunks[..n - 1];
    var p := TimedChunks(init, detected, language, chunkLength, answer);
    var a := answer(chunks[n - 1], ChunkLanguage(detected, language));
    var r := TimedChunks(chunks, detected, language, chunkLength, answer);
    assert r == p + (if a.success then [TimedChunk(n, a.text, a.language, (n - 1) * chunkLength)] else []);
    if i == n - 1 {
      assert r[|p|].chunk == i + 1;
    } else {
      assert init[i] == chunks[i];
      TimedChunksComplete(init, detected, language, chunkLength, answer, i);
      var k :| 0 <= k < |p| && p[k].chunk == i + 1;
      assert r[k].chunk == i + 1;
    }
  }

  /** Only the first chunk can set the detected language. */
  lemma FirstDetectionExtend(chunks: seq<seq<int>>, n: nat, language: Option<string>, detect: seq<int> -> string)
    requires 1 <= n <= |chunks|
    ensures FirstDetection(chunks[..n], language, detect)
            == if n == 1 && (language == Some("auto") || language == None) then Some(detect(chunks[0]))
               else FirstDetection(chunks[..n - 1], language, detect)
  {
    assert chunks[..n][0] == chunks[0];
    if n > 1 {
      assert chunks[..n - 1][0] == chunks[0];
    }
  }

  /** The results for one chunk more. */
  lemma TimedChunksExtend(chunks: seq<seq<int>>, n: nat, detected: Option<string>, language: Option<string>,
                          chunkLength: int, answer: (seq<int>, Option<string>) -> Answer)
    requires 1 <= n <= |chunks|
    ensures var a := answer(chunks[n - 1], ChunkLanguage(detected, language));
      TimedChunks(chunks[..n], detected, language, chunkLength, answer)
      == TimedChunks(chunks[..n - 1], detected, language, chunkLength, answer)
         + (if a.success then [TimedChunk(n, a.text, a.language, (n - 1) * chunkLength)] else [])
  {
    assert chunks[..n][..n - 1] == chunks[..n - 1];
  }

  /** `WhisperTranscriber.transcribe_streaming`. */
  method TranscribeStreaming(chunks: seq<seq<int>>, language: Option<string>, chunkLength: int,
                             detect: seq<int> -> string, answer: (seq<int>, Option<string>) -> Answer)
    returns (results: seq<TimedChunk>)
    ensures results == TimedChunks(chunks, FirstDetection(chunks, language, detect), language, chunkLength, answer)
  {
    var detected: Option<string> := None;
    var chunkNumber := 0;
    results := [];
    while chunkNumber < |chunks|
      invariant 0 <= chunkNumber <= |chunks|
      invariant detected == FirstDetection(chunks[..chunkNumber], language, detect)
      invariant results == TimedChunks(chunks[..chunkNumber], detected, language, chunkLength, answer)
    {
      var audioChunk := chunks[chunkNumber];
      chunkNumber := chunkNumber + 1;
      FirstDetectionExtend(chunks, chunkNumber, language, detect);
      if chunkNumber == 1 && (language == Some("auto") || language == None) {
        detected := Some(detect(audioChunk));
      }
      TimedChunksExtend(chunks, chunkNumber, detected, language, chunkLength, answer);
      var use := if detected.Some? && detected.value != "" then detected else language;
      var result := answer(audioChunk, use);
      if result.success {
        results := results + [TimedChunk(chunkNumber, result.text, result.language, (chunkNumber - 1) * chunkLength)];
      }
    }
    assert chunks[..|chunks|] == chunks;
  }
}
