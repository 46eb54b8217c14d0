/** The two transcribers of streaming_transcribe.py.

    `ParallelTranscriber` cuts 16 kHz audio into 30-second chunks that overlap
    by two seconds, transcribes each chunk (the source's transcription is a
    placeholder that names the chunk) and joins the texts in chunk order.

    `StreamingTranscriber._stream_with_ffmpeg` reads the decoder's output
    pipe and re-chunks it: a buffer collects the bytes read, and whenever it
    holds 960000 bytes (30 seconds of 16-bit samples) those are handed on and
    the rest is kept; at the end of the stream what is left is handed on
    too.  The reads are an input: one per call of `read`, an empty one
    meaning the end of the stream. */
module Parallel {
  import opened Common
  import opened Text
  import opened Sorting
  import opened Intervals
  import opened Formats
  import opened Streams

  const SampleRate := 16000
  /** `2 * sample_rate`: consecutive chunks share two seconds. */
  const OverlapSamples := 32000
  /** `self.chunk_duration`, in seconds. */
  const ChunkDuration := 30

  function Min(a: int, b: int): int {
    if a < b then a else b
  }

  // ---------------------------------------------------------------------
  // Overlapping split
  // ---------------------------------------------------------------------

  /** The windows `[s, min(s + chunk, n))` for s = start, start + step, ...
      while s < n. */
  function Windows(start: nat, n: nat, chunk: nat, step: nat): (r: seq<Span>)
    requires chunk > 0 && step > 0
    ensures (r == []) == (start >= n)
    ensures forall k :: 0 <= k < |r| ==> start <= r[k].start < r[k].end <= n && Length(r[k]) <= chunk
    decreases n - start
  {
    if start >= n then []
    else [Span(start, Min(start + chunk, n))] + Windows(start + step, n, chunk, step)
  }

  /** The windows `_split_audio` cuts from n samples with chunks of
      `duration` seconds. */
  function SplitWindows(n: nat, duration: nat): seq<Span>
    requires duration > 2
  {
    Windows(0, n, duration * SampleRate, duration * SampleRate - OverlapSamples)
  }

  /** Window k starts k steps in and is `chunk` long unless the audio ends
      first. */
  predicate Stepped(r: seq<Span>, start: int, n: int, chunk: int, step: int) {
    forall k :: 0 <= k < |r| ==> r[k].start == start + k * step && r[k].end == Min(r[k].start + chunk, n)
  }

  lemma {:induction false} WindowsStepped(start: nat, n: nat, chunk: nat, step: nat)
    requires chunk > 0 && step > 0
    ensures Stepped(Windows(start, n, chunk, step), start, n, chunk, step)
    decreases n - start
  {
    var r := Windows(start, n, chunk, step);
    if start < n {
      WindowsStepped(start + step, n, chunk, step);
      var rest := Windows(start + step, n, chunk, step);
      forall k | 0 <= k < |r| ensures r[k].start == start + k * step && r[k].end == Min(r[k].start + chunk, n) {
        if k > 0 {
          assert r[k] == rest[k - 1];
          assert start + step + (k - 1) * step == start + k * step;
        }
      }
    }
  }

  /** Each window starts `step` after the one before it, and where that one
      is not cut short by the end of the audio the two share `chunk - step`
      samples. */
  predicate Overlapping(r: seq<Span>, n: int, chunk: int, step: int) {
    forall k :: 0 <= k < |r| - 1 ==>
      && r[k + 1].start == r[k].start + step
      && (r[k].end < n ==> r[k].end - r[k + 1].start == chunk - step)
  }

  /** Some window holds sample i. */
  predicate Covered(r: seq<Span>, i: int) {
    exists k :: 0 <= k < |r| && r[k].start <= i < r[k].end
  }

  /** With a step no longer than a chunk, the windows overlap by the
      difference and the last one reaches the end of the audio. */
  lemma WindowsOverlap(start: nat, n: nat, chunk: nat, step: nat)
    requires 0 < step <= chunk
    ensures Overlapping(Windows(start, n, chunk, step), n, chunk, step)
    ensures Windows(start, n, chunk, step) != [] ==> Windows(start, n, chunk, step)[|Windows(start, n, chunk, step)| - 1].end == n
  {
    WindowsOverlapping(start, n, chunk, step);
    WindowsReachEnd(start, n, chunk, step);
  }

  lemma {:induction false} WindowsOverlapping(start: nat, n: nat, chunk: nat, step: nat)
    requires 0 < step <= chunk
    ensures Overlapping(Windows(start, n, chunk, step), n, chunk, step)
    decreases n - start
  {
    if start < n {
      WindowsOverlapping(start + step, n, chunk, step);
      var h := Span(start, Min(start + chunk, n));
      var rest := Windows(start + step, n, chunk, step);
      assert Windows(start, n, chunk, step) == [h] + rest;
      if rest != [] {
        assert rest[0].start == start + step;
      }
      OverlapCons(h, rest, n, chunk, step);
    }
  }

  lemma {:induction false} WindowsReachEnd(start: nat, n: nat, chunk: nat, step: nat)
    requires 0 < step <= chunk
    ensures Windows(start, n, chunk, step) != [] ==> Windows(start, n, chunk, step)[|Windows(start, n, chunk, step)| - 1].end == n
    decreases n - start
  {
    if start < n {
      WindowsReachEnd(start + step, n, chunk, step);
      var h := Span(start, Min(start + chunk, n));
      var rest := Windows(start + step, n, chunk, step);
      var r := [h] + rest;
      assert Windows(start, n, chunk, step) == r;
      if rest != [] {
        assert r[|r| - 1] == rest[|rest| - 1];
      }
    }
  }

  /** A window put in front of overlapping windows that start `step` after
      it, and that it reaches `chunk - step` into unless the audio ends. */
  lemma OverlapCons(h: Span, rest: seq<Span>, n: int, chunk: int, step: int)
    requires Overlapping(rest, n, chunk, step)
    requires rest != [] ==> rest[0].start == h.start + step
    requires rest != [] && h.end < n ==> h.end - rest[0].start == chunk - step
    ensures Overlapping([h] + rest, n, chunk, step)
  {
    var r := [h] + rest;
    forall k | 0 <= k < |r| - 1
      ensures r[k + 1].start == r[k].start + step
      ensures r[k].end < n ==> r[k].end - r[k + 1].start == chunk - step
    {
      if k > 0 {
        assert r[k] == rest[k - 1] && r[k + 1] == rest[k];
      }
    }
  }

  /** With a step no longer than a chunk, every sample lies in a window. */
  lemma {:induction false} WindowsCover(start: nat, n: nat, chunk: nat, step: nat)
    requires 0 < step <= chunk
    ensures forall i :: start <= i < n ==> Covered(Windows(start, n, chunk, step), i)
    decreases n - start
  {
    var r := Windows(start, n, chunk, step);
    if start < n {
      WindowsCover(start + step, n, chunk, step);
      var rest := Windows(start + step, n, chunk, step);
      forall i | start <= i < n ensures Covered(r, i) {
        if i < start + step {
          assert r[0].start <= i < r[0].end;
        } else {
          assert Covered(rest, i);
          var j :| 0 <= j < |rest| && rest[j].start <= i < rest[j].end;
          assert r[j + 1] == rest[j];
        }
      }
    }
  }

  /** When no more than `chunk - step` samples are left for the last window,
      it lies inside the window before it: those samples are transcribed
      twice. */
  lemma LastWindowInsidePrevious(start: nat, n: nat, chunk: nat, step: nat)
    requires 0 < step <= chunk
    requires |Windows(start, n, chunk, step)| >= 2
    requires Length(Windows(start, n, chunk, step)[|Windows(start, n, chunk, step)| - 1]) <= chunk - step
    ensures var r := Windows(start, n, chunk, step);
      r[|r| - 2].start < r[|r| - 1].start && r[|r| - 1].end == r[|r| - 2].end
  {
    WindowsOverlap(start, n, chunk, step);
    var r := Windows(start, n, chunk, step);
    var p := |r| - 2;
    assert r[p + 1].start == r[p].start + step;
  }

  /** The audio of the default split: window k starts at k * 448000, holds at
      most 480000 samples, the windows share 32000 samples wherever the
      earlier one is whole, and every sample lies in one of them; empty audio
      has no windows. */
  lemma SplitWindowsShape(n: nat)
    ensures var r := SplitWindows(n, ChunkDuration);
      && (r == [] <==> n == 0)
      && Stepped(r, 0, n, 480000, 448000)
      && Overlapping(r, n, 480000, 448000)
      && (forall k :: 0 <= k < |r| ==> 0 < Length(r[k]) <= 480000)
      && (forall i :: 0 <= i < n ==> Covered(r, i))
  {
    WindowsStepped(0, n, 480000, 448000);
    WindowsOverlap(0, n, 480000, 448000);
    WindowsCover(0, n, 480000, 448000);
  }

  /** The first window and the ones after it. */
  lemma WindowsFirst(start: nat, n: nat, chunk: nat, step: nat)
    requires chunk > 0 && step > 0 && start < n
    ensures var r := Windows(start, n, chunk, step);
      r != [] && r[0] == Span(start, Min(start + chunk, n)) && r[1..] == Windows(start + step, n, chunk, step)
  {
    var r := Windows(start, n, chunk, step);
    assert r == [Span(start, Min(start + chunk, n))] + Windows(start + step, n, chunk, step);
  }

  /** Walking down a sequence one element at a time. */
  lemma SuffixStep<T>(s: seq<T>, i: nat, rest: seq<T>)
    requires i <= |s| && s[i..] == rest && rest != []
    ensures i < |s| && s[i] == rest[0] && s[i + 1..] == rest[1..]
  {
    assert s[i..][0] == s[i];
    assert s[i..][1..] == s[i + 1..];
  }

  /** Each chunk is the audio of its window. */
  predicate SlicesOf(chunks: seq<seq<int>>, audio: seq<int>, ws: seq<Span>) {
    && |chunks| == |ws|
    && forall k :: 0 <= k < |ws| ==> ws[k].start <= ws[k].end <= |audio| && chunks[k] == audio[ws[k].start..ws[k].end]
  }

  /** Cutting the next window's audio keeps every chunk the audio of its
      window. */
  lemma SliceAppended(chunks: seq<seq<int>>, audio: seq<int>, ws: seq<Span>, start: nat, end: nat)
    requires |chunks| < |ws| && ws[|chunks|] == Span(start, end) && start <= end <= |audio|
    requires forall k :: 0 <= k < |chunks| ==> ws[k].start <= ws[k].end <= |audio| && chunks[k] == audio[ws[k].start..ws[k].end]
    ensures var c := chunks + [audio[start..end]];
      forall k :: 0 <= k < |c| ==> ws[k].start <= ws[k].end <= |audio| && c[k] == audio[ws[k].start..ws[k].end]
  {
  }

  /** `_split_audio`: a chunk duration of two seconds or less would make the
      loop step by nothing or backwards. */
  method SplitAudio(audio: seq<int>, chunkDuration: nat) returns (chunks: seq<seq<int>>)
    requires chunkDuration > 2
    ensures SlicesOf(chunks, audio, SplitWindows(|audio|, chunkDuration))
  {
    var chunkSamples := chunkDuration * SampleRate;
    var overlapSamples := 2 * SampleRate;
    var step := chunkSamples - overlapSamples;
    assert chunkSamples > 0 && step > 0 by {
      assert chunkDuration * SampleRate >= 3 * SampleRate;
    }
    ghost var ws := SplitWindows(|audio|, chunkDuration);
    chunks := [];
    var start: nat := 0;
    while start < |audio|
      invariant |chunks| <= |ws|
      invariant ws[|chunks|..] == Windows(start, |audio|, chunkSamples, step)
      invariant forall k :: 0 <= k < |chunks| ==> ws[k].start <= ws[k].end <= |audio| && chunks[k] == audio[ws[k].start..ws[k].end]
      decreases |audio| - start
    {
      var end := Min(start + chunkSamples, |audio|);
      WindowsFirst(start, |audio|, chunkSamples, step);
      SuffixStep(ws, |chunks|, Windows(start, |audio|, chunkSamples, step));
      SliceAppended(chunks, audio, ws, start, end);
      assert ws[|chunks| + 1..] == Windows(start + step, |audio|, chunkSamples, step);
      chunks := chunks + [audio[start..end]];
      start := start + step;
    }
    assert ws[|chunks|..] == [];
  }

  // ---------------------------------------------------------------------
  // Combining in index order
  // ---------------------------------------------------------------------

  /** What one chunk's transcription reports: its position and its text. */
  datatype ChunkResult = ChunkResult(index: int, text: string)

  function ResultIndex(r: ChunkResult): int {
    r.index
  }

  function ResultTexts(rs: seq<ChunkResult>): seq<string> {
    seq(|rs|, k requires 0 <= k < |rs| => rs[k].text)
  }

  /** The texts of the results sorted by index, joined with spaces. */
  function Combine(results: seq<ChunkResult>): string {
    Join(" ", ResultTexts(SortBy(results, ResultIndex)))
  }

  /** The order in which results arrive does not matter: any arrangement of
      results with distinct indices combines to their texts in index order. */
  lemma CombineInIndexOrder(results: seq<ChunkResult>, ordered: seq<ChunkResult>)
    requires StrictlySortedBy(ordered, ResultIndex)
    requires multiset(results) == multiset(ordered)
    ensures Combine(results) == Join(" ", ResultTexts(ordered))
  {
    SortedPermutationUnique(SortBy(results, ResultIndex), ordered, ResultIndex);
  }

  /** The placeholder text `_transcribe_chunk_with_timing` reports. */
  function ChunkText(index: nat): string {
    "Chunk " + NatToDecimal(index) + " transcript"
  }

  /** The transcript and the per-chunk results. */
  datatype ParallelResult = ParallelResult(transcript: string, chunks: seq<ChunkResult>)

  /** `transcribe_from_url` on downloaded audio: one result per chunk of the
      split, numbered in chunk order, and the transcript their texts in that
      order. */
  method TranscribeFromUrl(audio: seq<int>) returns (r: ParallelResult)
    ensures |r.chunks| == |SplitWindows(|audio|, ChunkDuration)|
    ensures forall k :: 0 <= k < |r.chunks| ==> r.chunks[k] == ChunkResult(k, ChunkText(k))
    ensures r.transcript == Join(" ", ResultTexts(r.chunks))
  {
    var chunks := SplitAudio(audio, ChunkDuration);
    var results: seq<ChunkResult> := [];
    var i := 0;
    while i < |chunks|
      invariant 0 <= i <= |chunks|
      invariant |results| == i
      invariant forall k :: 0 <= k < i ==> results[k] == ChunkResult(k, ChunkText(k))
    {
      results := results + [ChunkResult(i, ChunkText(i))];
      i := i + 1;
    }
    CombineInIndexOrder(results, results);
    r := ParallelResult(Combine(results), results);
  }

  // ---------------------------------------------------------------------
  // Re-chunking the decoder's output
  // ---------------------------------------------------------------------

  /** `chunk_size * 2`: 30 seconds of 16-bit samples at 16 kHz. */
  const ChunkBytes := 960000

  /** The chunks handed on, given the reads still to come and the bytes
      buffered: at most one full chunk is cut after each read, and at the
      end of the stream a non-empty buffer is handed on as it is. */
  function Rechunk(received: seq<seq<byte>>, buffer: seq<byte>): seq<seq<byte>>
    decreases |received|
  {
    if received == [] || received[0] == [] then
      (if buffer == [] then [] else [buffer])
    else
      var b := buffer + received[0];
      if |b| >= ChunkBytes then [b[..ChunkBytes]] + Rechunk(received[1..], b[ChunkBytes..])
      else Rechunk(received[1..], b)
  }

  /** Nothing is lost, duplicated or reordered: the chunks laid end to end are
      the buffered bytes followed by every byte read before the end of the
      stream. */
  lemma {:induction false} RechunkKeepsBytes(received: seq<seq<byte>>, buffer: seq<byte>)
    ensures Concat(Rechunk(received, buffer)) == buffer + Concat(UntilEof(received))
    decreases |received|
  {
    if received == [] || received[0] == [] {
      assert UntilEof(received) == [];
      if buffer != [] {
        assert Concat([buffer]) == buffer + Concat<byte>([]);
      }
    } else {
      var b := buffer + received[0];
      assert UntilEof(received) == [received[0]] + UntilEof(received[1..]);
      assert Concat(UntilEof(received)) == received[0] + Concat(UntilEof(received[1..]));
      if |b| >= ChunkBytes {
        RechunkKeepsBytes(received[1..], b[ChunkBytes..]);
        var rest := Rechunk(received[1..], b[ChunkBytes..]);
        assert Concat([b[..ChunkBytes]] + rest) == b[..ChunkBytes] + Concat(rest);
        assert b[..ChunkBytes] + b[ChunkBytes..] == b;
      } else {
        RechunkKeepsBytes(received[1..], b);
      }
    }
  }

  /** Every chunk holds bytes and at most `size` of them, and all but the last
      hold exactly `size`. */
  predicate FullChunks(chunks: seq<seq<byte>>, size: int) {
    && (forall k :: 0 <= k < |chunks| ==> 0 < |chunks[k]| <= size)
    && (forall k :: 0 <= k < |chunks| - 1 ==> |chunks[k]| == size)
  }

  /** Each read returns at most the 960000 bytes it asks for. */
  predicate BoundedReads(received: seq<seq<byte>>) {
    forall k :: 0 <= k < |received| ==> |received[k]| <= ChunkBytes
  }

  /** The buffer once the first `n` reads are appended and each full chunk
      cut off: what the loop holds when it issues read `n + 1`. */
  function BufferAfter(received: seq<seq<byte>>, buffer: seq<byte>, n: nat): seq<byte>
    requires n <= |received|
  {
    if n == 0 then buffer
    else
      var b := BufferAfter(received, buffer, n - 1) + received[n - 1];
      if |b| >= ChunkBytes then b[ChunkBytes..] else b
  }

  /** With reads no larger than they ask for, the buffer holds fewer than
      960000 bytes at every read. */
  lemma {:induction false} BufferBounded(received: seq<seq<byte>>, buffer: seq<byte>, n: nat)
    requires BoundedReads(received) && |buffer| < ChunkBytes && n <= |received|
    ensures |BufferAfter(received, buffer, n)| < ChunkBytes
  {
    if n > 0 {
      BufferBounded(received, buffer, n - 1);
    }
  }

  /** `BufferAfter` is the buffer `Rechunk` carries: after `n` reads that
      did not end the stream, the chunks still to come are those of the
      remaining reads from that buffer, so they end what `Rechunk` hands on. */
  lemma {:induction false} RechunkResumes(received: seq<seq<byte>>, buffer: seq<byte>, n: nat)
    requires n <= |received| && forall k :: 0 <= k < n ==> received[k] != []
    ensures var r := Rechunk(received, buffer);
      var t := Rechunk(received[n..], BufferAfter(received, buffer, n));
      |t| <= |r| && r[|r| - |t|..] == t
    decreases n
  {
    if n > 0 {
      var b1 := BufferAfter(received, buffer, 1);
      var pre := RechunkFirst(received, buffer);
      RechunkResumes(received[1..], b1, n - 1);
      BufferAfterShift(received, buffer, n);
      assert received[1..][n - 1..] == received[n..];
      SuffixOfSuffix(Rechunk(received, buffer), pre, Rechunk(received[1..], b1),
                     Rechunk(received[n..], BufferAfter(received, buffer, n)));
    }
  }

  /** A non-empty first read cuts at most one chunk and leaves
      `BufferAfter(received, buffer, 1)`. */
  lemma RechunkFirst(received: seq<seq<byte>>, buffer: seq<byte>) returns (pre: seq<seq<byte>>)
    requires received != [] && received[0] != []
    ensures Rechunk(received, buffer) == pre + Rechunk(received[1..], BufferAfter(received, buffer, 1))
  {
    assert BufferAfter(received, buffer, 0) == buffer;
    var b := buffer + received[0];
    pre := if |b| >= ChunkBytes then [b[..ChunkBytes]] else [];
  }

  lemma SuffixOfSuffix<T>(r: seq<T>, pre: seq<T>, r1: seq<T>, t: seq<T>)
    requires r == pre + r1 && |t| <= |r1| && r1[|r1| - |t|..] == t
    ensures |t| <= |r| && r[|r| - |t|..] == t
  {
    assert r[|r| - |t|..] == r1[|r1| - |t|..];
  }

  /** Reading on from the buffer after the first read. */
  lemma {:induction false} BufferAfterShift(received: seq<seq<byte>>, buffer: seq<byte>, n: nat)
    requires 1 <= n <= |received|
    ensures BufferAfter(received[1..], BufferAfter(received, buffer, 1), n - 1) == BufferAfter(received, buffer, n)
    decreases n
  {
    if n > 1 {
      BufferAfterShift(received, buffer, n - 1);
      assert received[1..][n - 2] == received[n - 1];
    }
  }

  /** With reads no larger than they ask for, every chunk but the last is
      exactly 960000 bytes and the last is at most that (the buffer bound
      itself is `BufferBounded`). */
  lemma {:induction false} RechunkSizes(received: seq<seq<byte>>, buffer: seq<byte>)
    requires BoundedReads(received) && |buffer| < ChunkBytes
    ensures FullChunks(Rechunk(received, buffer), ChunkBytes)
    decreases |received|
  {
    if received != [] && received[0] != [] {
      var b := buffer + received[0];
      assert BoundedReads(received[1..]) by {
        forall k | 0 <= k < |received| - 1 ensures |received[1..][k]| <= ChunkBytes {
          assert received[1..][k] == received[k + 1];
        }
      }
      if |b| >= ChunkBytes {
        RechunkSizes(received[1..], b[ChunkBytes..]);
        var rest := Rechunk(received[1..], b[ChunkBytes..]);
        var r := [b[..ChunkBytes]] + rest;
        forall k | 0 <= k < |r| ensures 0 < |r[k]| <= ChunkBytes {
          if k > 0 { assert r[k] == rest[k - 1]; }
        }
        forall k | 0 <= k < |r| - 1 ensures |r[k]| == ChunkBytes {
          if k > 0 { assert r[k] == rest[k - 1]; }
        }
      } else {
        RechunkSizes(received[1..], b);
      }
    }
  }

  /** What `_stream_with_ffmpeg` hands to transcription. */
  datatype Streamed = NoAudioStream | Chunks(chunks: seq<seq<byte>>)

  /** `_stream_with_ffmpeg`: the first audio-only format's URL, then the read
      loop over the decoder's output. */
  method StreamWithFfmpeg(formats: seq<Format>, received: seq<seq<byte>>) returns (r: Streamed)
    ensures StreamUrl(formats).None? ==> r == NoAudioStream
    ensures StreamUrl(formats).Some? ==> r == Chunks(Rechunk(received, []))
  {
    var url := FindStreamUrl(formats);
    if url.None? {
      return NoAudioStream;
    }
    var buffer: seq<byte> := [];
    var emitted: seq<seq<byte>> := [];
    var i := 0;
    while true
      invariant 0 <= i <= |received|
      invariant emitted + Rechunk(received[i..], buffer) == Rechunk(received, [])
      invariant BoundedReads(received) ==> |buffer| < ChunkBytes
      decreases |received| - i
    {
      var chunk := if i < |received| then received[i] else [];
      if chunk == [] {
        if buffer != [] {
          emitted := emitted + [buffer];
        }
        break;
      }
      assert received[i..][1..] == received[i + 1..];
      buffer := buffer + chunk;
      i := i + 1;
      if |buffer| >= ChunkBytes {
        emitted := emitted + [buffer[..ChunkBytes]];
        buffer := buffer[ChunkBytes..];
      }
    }
    return Chunks(emitted);
  }
}
