/** The earlier SenseVoice segmenter (sensevoice_transcription_broken.py):
    the non-silent stretches found in the audio are merged when less than
    half a second apart, and merged stretches longer than 30 s are split into
    equal pieces.  The detection of non-silent stretches is an input. */
module SpeechMerge {
  import opened Common
  import opened Intervals

  /** Stretches closer than this are one utterance. */
  const MergeGapMs: nat := 500
  const MaxChunkMs: nat := 30000

  /** The gap before stretch k, from the end of stretch k - 1. */
  function Gap(cs: seq<Span>, k: nat): int
    requires 1 <= k < |cs|
  {
    cs[k].start - cs[k - 1].end
  }

  /** Stretch k opens a merged chunk: it is the first, or the gap before it is
      at least half a second. */
  predicate OpensAt(cs: seq<Span>, k: nat)
    requires k < |cs|
  {
    k == 0 || Gap(cs, k) >= MergeGapMs
  }

  /** Stretch k closes a merged chunk: it is the last, or the next one opens. */
  predicate ClosesAt(cs: seq<Span>, k: nat)
    requires k < |cs|
  {
    k == |cs| - 1 || OpensAt(cs, k + 1)
  }

  /** The merge pass, one stretch at a time: a stretch closer than half a
      second to the open chunk extends it, any other one closes it and opens
      the next. */
  function Merged(cs: seq<Span>): (r: seq<Span>)
    ensures |r| <= |cs| && (r == [] <==> cs == [])
    ensures cs != [] ==> r[0].start == cs[0].start && r[|r| - 1].end == cs[|cs| - 1].end
    decreases |cs|
  {
    if |cs| <= 1 then cs
    else MergeInto(Merged(cs[..|cs| - 1]), cs[|cs| - 1])
  }

  /** One step of the merge pass: stretch c extends the open chunk, the last
      of m, when it starts less than half a second after it, and otherwise
      follows it as a chunk of its own. */
  function MergeInto(m: seq<Span>, c: Span): (r: seq<Span>)
    requires m != []
    ensures |m| <= |r| <= |m| + 1 && r[0].start == m[0].start && r[|r| - 1].end == c.end
  {
    if c.start - m[|m| - 1].end < MergeGapMs then m[..|m| - 1] + [Span(m[|m| - 1].start, c.end)]
    else m + [c]
  }

  /** One more stretch either extends the last merged chunk or follows it. */
  lemma MergedStep(cs: seq<Span>, i: nat)
    requires 1 <= i < |cs|
    ensures Merged(cs[..i + 1]) == MergeInto(Merged(cs[..i]), cs[i])
  {
    assert cs[..i + 1] == cs[..i] + [cs[i]];
    MergedSnoc(cs[..i], cs[i]);
  }

  lemma MergedSnoc(p: seq<Span>, c: Span)
    requires p != []
    ensures Merged(p + [c]) == MergeInto(Merged(p), c)
  {
    var q := p + [c];
    assert q[..|q| - 1] == p;
  }

  /** One step of the merge pass with the open chunk `[start, end]` written
      out. */
  lemma MergeIntoLast(merged: seq<Span>, start: nat, end: nat, c: Span)
    ensures MergeInto(merged + [Span(start, end)], c)
            == if c.start - end < MergeGapMs then merged + [Span(start, c.end)]
               else merged + [Span(start, end)] + [Span(c.start, c.end)]
  {
    var m := merged + [Span(start, end)];
    assert m[..|m| - 1] == merged && m[|m| - 1] == Span(start, end);
  }

  /** The loop of the merge pass, with the open chunk in two variables. */
  method MergeClose(cs: seq<Span>) returns (merged: seq<Span>)
    ensures merged == Merged(cs)
  {
    merged := [];
    if cs == [] {
      return;
    }
    var currentStart, currentEnd := cs[0].start, cs[0].end;
    var i := 1;
    assert cs[..1] == [cs[0]];
    while i < |cs|
      invariant 1 <= i <= |cs|
      invariant merged + [Span(currentStart, currentEnd)] == Merged(cs[..i])
    {
      MergedStep(cs, i);
      MergeIntoLast(merged, currentStart, currentEnd, cs[i]);
      if cs[i].start - currentEnd < MergeGapMs {
        currentEnd := cs[i].end;
      } else {
        merged := merged + [Span(currentStart, currentEnd)];
        currentStart, currentEnd := cs[i].start, cs[i].end;
      }
      i := i + 1;
    }
    merged := merged + [Span(currentStart, currentEnd)];
    assert cs[..i] == cs;
  }

  /** Consecutive chunks lie at least `gap` milliseconds apart. */
  predicate SeparatedBy(r: seq<Span>, gap: nat) {
    forall j :: 0 <= j < |r| - 1 ==> r[j + 1].start - r[j].end >= gap
  }

  /** Merged chunks lie at least half a second apart. */
  lemma {:induction false} MergedGaps(cs: seq<Span>)
    ensures SeparatedBy(Merged(cs), MergeGapMs)
    decreases |cs|
  {
    if |cs| > 1 {
      MergedGaps(cs[..|cs| - 1]);
      var m := Merged(cs[..|cs| - 1]);
      var r := Merged(cs);
      var c := cs[|cs| - 1];
      if c.start - m[|m| - 1].end < MergeGapMs {
        forall j | 0 <= j < |r| - 1 ensures r[j + 1].start - r[j].end >= MergeGapMs {
          assert r[j] == m[j];
          assert r[j + 1].start == m[j + 1].start;
        }
      } else {
        forall j | 0 <= j < |r| - 1 ensures r[j + 1].start - r[j].end >= MergeGapMs {
          assert r[j] == m[j];
          if j + 1 < |m| { assert r[j + 1] == m[j + 1]; }
        }
      }
    }
  }

  /** The starts of the stretches among the first n that open a chunk. */
  function OpeningStarts(cs: seq<Span>, n: nat): seq<nat>
    requires n <= |cs|
  {
    if n == 0 then [] else OpeningStarts(cs, n - 1) + (if OpensAt(cs, n - 1) then [cs[n - 1].start] else [])
  }

  /** The ends of the stretches among the first n that close a chunk. */
  function ClosingEnds(cs: seq<Span>, n: nat): seq<nat>
    requires n <= |cs|
  {
    if n == 0 then [] else ClosingEnds(cs, n - 1) + (if ClosesAt(cs, n - 1) then [cs[n - 1].end] else [])
  }

  function Starts(r: seq<Span>): (s: seq<nat>)
    ensures |s| == |r|
  {
    seq(|r|, j requires 0 <= j < |r| => r[j].start)
  }

  function Ends(r: seq<Span>): (e: seq<nat>)
    ensures |e| == |r|
  {
    seq(|r|, j requires 0 <= j < |r| => r[j].end)
  }

  /** Element j of the starts and ends is chunk j's start and end. */
  lemma StartsEndsAt(r: seq<Span>)
    ensures forall j :: 0 <= j < |r| ==> Starts(r)[j] == r[j].start && Ends(r)[j] == r[j].end
  {
  }

  /** The last stretch always closes a run. */
  lemma ClosingEndsLast(cs: seq<Span>)
    requires cs != []
    ensures ClosingEnds(cs, |cs|) == ClosingEnds(cs, |cs| - 1) + [cs[|cs| - 1].end]
  {
    assert ClosesAt(cs, |cs| - 1);
  }

  /** The merge pass answers exactly one chunk per run of stretches separated
      by gaps under half a second: its chunks start at the stretches that open
      a run (the first, and each one at least half a second after its
      predecessor) and end at the stretches that close one. */
  lemma MergedRuns(cs: seq<Span>)
    ensures Starts(Merged(cs)) == OpeningStarts(cs, |cs|)
    ensures Ends(Merged(cs)) == ClosingEnds(cs, |cs|)
  {
    if cs != [] {
      MergedPrefixRuns(cs, |cs|);
      assert cs[..|cs|] == cs;
      ClosingEndsLast(cs);
    }
  }

  /** The chunks merged from the first k stretches start where the runs among
      them open; they end where the runs among the first k - 1 close, and at
      stretch k - 1, whose run is still open. */
  lemma MergedPrefixRuns(cs: seq<Span>, k: nat)
    requires 1 <= k <= |cs|
    ensures Starts(Merged(cs[..k])) == OpeningStarts(cs, k)
    ensures Ends(Merged(cs[..k])) == ClosingEnds(cs, k - 1) + [cs[k - 1].end]
  {
    PrefixRunsUpTo(cs, k);
  }

  /** The two facts of MergedPrefixRuns for the first k stretches. */
  predicate PrefixRuns(cs: seq<Span>, k: nat)
    requires 1 <= k <= |cs|
  {
    && Starts(Merged(cs[..k])) == OpeningStarts(cs, k)
    && Ends(Merged(cs[..k])) == ClosingEnds(cs, k - 1) + [cs[k - 1].end]
  }

  lemma {:induction false} PrefixRunsUpTo(cs: seq<Span>, k: nat)
    requires 1 <= k <= |cs|
    ensures PrefixRuns(cs, k)
    decreases k
  {
    if k == 1 {
      PrefixRunsBase(cs);
    } else {
      PrefixRunsUpTo(cs, k - 1);
      PrefixRunsStep(cs, k);
    }
  }

  /** The first stretch alone is one chunk. */
  lemma PrefixRunsBase(cs: seq<Span>)
    requires 1 <= |cs|
    ensures PrefixRuns(cs, 1)
  {
    assert cs[..1] == [cs[0]];
    SpanSeqOne(cs[0]);
  }

  /** The step of MergedPrefixRuns from the first k - 1 stretches to the
      first k. */
  lemma PrefixRunsStep(cs: seq<Span>, k: nat)
    requires 2 <= k <= |cs|
    requires PrefixRuns(cs, k - 1)
    ensures PrefixRuns(cs, k)
  {
    var p := cs[..k - 1];
    assert cs[..k] == p + [cs[k - 1]];
    MergedSnoc(p, cs[k - 1]);
    PrefixStep(cs, k, Merged(p), Merged(cs[..k]));
  }

  /** Merging stretch k - 1 into the chunks of the stretches before it keeps
      the chunk starts at the opening stretches and the chunk ends at the
      closing ones. */
  lemma PrefixStep(cs: seq<Span>, k: nat, m: seq<Span>, r: seq<Span>)
    requires 2 <= k <= |cs| && m != []
    requires Starts(m) == OpeningStarts(cs, k - 1)
    requires Ends(m) == ClosingEnds(cs, k - 2) + [cs[k - 2].end]
    requires r == MergeInto(m, cs[k - 1])
    ensures Starts(r) == OpeningStarts(cs, k)
    ensures Ends(r) == ClosingEnds(cs, k - 1) + [cs[k - 1].end]
  {
    StartsEndsAt(m);
    assert m[|m| - 1].end == Ends(m)[|m| - 1] == cs[k - 2].end;
    if OpensAt(cs, k - 1) {
      PrefixOpens(cs, k, m, r);
    } else {
      PrefixExtends(cs, k, m, r);
    }
  }

  /** A stretch half a second or more after its predecessor closes the open
      run and adds a chunk of its own. */
  lemma PrefixOpens(cs: seq<Span>, k: nat, m: seq<Span>, r: seq<Span>)
    requires 2 <= k <= |cs| && OpensAt(cs, k - 1)
    requires Starts(m) == OpeningStarts(cs, k - 1)
    requires Ends(m) == ClosingEnds(cs, k - 2) + [cs[k - 2].end]
    requires r == m + [cs[k - 1]]
    ensures Starts(r) == OpeningStarts(cs, k)
    ensures Ends(r) == ClosingEnds(cs, k - 1) + [cs[k - 1].end]
  {
    SpanSeqAppend(m, [cs[k - 1]]);
    SpanSeqOne(cs[k - 1]);
    assert ClosesAt(cs, k - 2);
  }

  /** A stretch less than half a second after its predecessor extends the
      open run's chunk. */
  lemma PrefixExtends(cs: seq<Span>, k: nat, m: seq<Span>, r: seq<Span>)
    requires 2 <= k <= |cs| && !OpensAt(cs, k - 1) && m != []
    requires Starts(m) == OpeningStarts(cs, k - 1)
    requires Ends(m) == ClosingEnds(cs, k - 2) + [cs[k - 2].end]
    requires r == m[..|m| - 1] + [Span(m[|m| - 1].start, cs[k - 1].end)]
    ensures Starts(r) == OpeningStarts(cs, k)
    ensures Ends(r) == ClosingEnds(cs, k - 1) + [cs[k - 1].end]
  {
    ExtendLast(m, cs[k - 1], ClosingEnds(cs, k - 2), cs[k - 2].end);
    assert !ClosesAt(cs, k - 2);
    assert ClosingEnds(cs, k - 1) == ClosingEnds(cs, k - 2) + [];
    assert OpeningStarts(cs, k) == OpeningStarts(cs, k - 1) + [];
  }

  /** Extending the open chunk keeps the starts and replaces the last end. */
  lemma ExtendLast(m: seq<Span>, c: Span, before: seq<nat>, e: nat)
    requires |m| >= 1 && Ends(m) == before + [e]
    ensures var last := |m| - 1;
      var r := m[..last] + [Span(m[last].start, c.end)];
      Starts(r) == Starts(m) && Ends(r) == before + [c.end]
  {
    var last := |m| - 1;
    var joined := Span(m[last].start, c.end);
    SpanSeqAppend(m[..last], [joined]);
    SpanSeqAppend(m[..last], [m[last]]);
    SpanSeqOne(joined);
    SpanSeqOne(m[last]);
    StartsEndsAt(m);
    assert m[last].end == Ends(m)[last] == e;
    assert m == m[..last] + [m[last]];
    assert Ends(m[..last]) == before;
  }

  lemma SpanSeqAppend(a: seq<Span>, b: seq<Span>)
    ensures Starts(a + b) == Starts(a) + Starts(b)
    ensures Ends(a + b) == Ends(a) + Ends(b)
  {
    StartsEndsAt(a + b);
    StartsEndsAt(a);
    StartsEndsAt(b);
    assert forall j :: 0 <= j < |a| ==> (a + b)[j] == a[j];
    assert forall j :: |a| <= j < |a + b| ==> (a + b)[j] == b[j - |a|];
  }

  lemma SpanSeqOne(c: Span)
    ensures Starts([c]) == [c.start] && Ends([c]) == [c.end]
  {
    StartsEndsAt([c]);
  }

  // ---------------------------------------------------------------------------
  // Splitting long chunks.
  // ---------------------------------------------------------------------------

  /** How many pieces a chunk of `d` milliseconds is split into. */
  function PieceCount(d: nat): nat {
    d / MaxChunkMs + 1
  }

  /** Piece i of n of chunk s: from `start + i*d/n` to `start + (i+1)*d/n`,
      the end clamped to the chunk's end. */
  function Piece(s: Span, n: nat, i: nat): Span
    requires n > 0 && s.start <= s.end
  {
    var d := s.end - s.start;
    var b := s.start + (i + 1) * d / n;
    Span(s.start + i * d / n, if b > s.end then s.end else b)
  }

  /** The pieces of one merged chunk: itself when at most 30 s long. */
  function Pieces(s: Span): seq<Span> {
    if Length(s) > MaxChunkMs then
      var n := PieceCount(Length(s));
      seq(n, i requires 0 <= i < n => Piece(s, n, i))
    else [s]
  }

  /** The split pass over all merged chunks, in order. */
  function SplitAll(ms: seq<Span>): seq<Span>
    decreases |ms|
  {
    if ms == [] then [] else SplitAll(ms[..|ms| - 1]) + Pieces(ms[|ms| - 1])
  }

  /** The loop of the split pass. */
  method SplitLong(merged: seq<Span>) returns (chunks: seq<Span>)
    ensures chunks == SplitAll(merged)
  {
    chunks := [];
    var j := 0;
    while j < |merged|
      invariant 0 <= j <= |merged|
      invariant chunks == SplitAll(merged[..j])
    {
      var s := merged[j];
      assert merged[..j + 1][..j] == merged[..j];
      var pieces := SplitChunk(s);
      chunks := chunks + pieces;
      j := j + 1;
    }
    assert merged[..j] == merged;
  }

  /** The inner loop of the split pass: the pieces of one merged chunk. */
  method SplitChunk(s: Span) returns (pieces: seq<Span>)
    ensures pieces == Pieces(s)
  {
    if s.end - s.start <= MaxChunkMs {
      return [s];
    }
    var d := s.end - s.start;
    var n := PieceCount(d);
    ghost var all := Pieces(s);
    assert |all| == n;
    pieces := [];
    var i := 0;
    while i < n
      invariant 0 <= i <= n
      invariant pieces == all[..i]
    {
      var splitStart := s.start + i * d / n;
      var splitEnd := s.start + (i + 1) * d / n;
      if splitEnd > s.end {
        splitEnd := s.end;
      }
      assert all[i] == Span(splitStart, splitEnd);
      assert all[..i + 1] == all[..i] + [all[i]];
      pieces := pieces + [Span(splitStart, splitEnd)];
      i := i + 1;
    }
    assert all[..n] == all;
  }

  lemma MulMono(a: int, b: int, c: nat)
    requires a <= b
    ensures a * c <= b * c
  {
    assert b * c - a * c == (b - a) * c;
  }

  lemma DivMono(x: nat, y: nat, n: nat)
    requires n > 0 && x <= y
    ensures x / n <= y / n
  {
    var qx, qy := x / n, y / n;
    assert x == qx * n + x % n && y == qy * n + y % n;
    if qx > qy {
      MulMono(qy + 1, qx, n);
    }
  }

  /** Consecutive cut points `i*d/n` lie between 1 and 30000 apart when the
      chunk is longer than one piece per 30 s would allow. */
  lemma StepBounds(i: nat, d: nat, n: nat)
    requires n > 0 && n <= d < MaxChunkMs * n
    ensures 1 <= (i + 1) * d / n - i * d / n <= MaxChunkMs
  {
    var a := i * d;
    assert (i + 1) * d == a + d;
    var q1, r1 := a / n, a % n;
    var q2, r2 := (a + d) / n, (a + d) % n;
    assert a == q1 * n + r1;
    assert a + d == q2 * n + r2;
    assert d == (q2 - q1) * n + r2 - r1;
    if q2 - q1 < 1 {
      MulMono(q2 - q1, 0, n);
    }
    if q2 - q1 > MaxChunkMs {
      MulMono(MaxChunkMs + 1, q2 - q1, n);
    }
  }

  /** A chunk longer than 30 s has at least one millisecond per piece and
      less than 30 s per piece. */
  lemma PieceCountBounds(d: nat)
    requires d > MaxChunkMs
    ensures PieceCount(d) <= d < MaxChunkMs * PieceCount(d)
  {
    var q := d / MaxChunkMs;
    assert d == MaxChunkMs * q + d % MaxChunkMs;
    assert q >= 1;
  }

  /** The cut points `i*d/n` and `(i+1)*d/n` of piece i lie within the chunk
      and between 1 ms and 30 s apart. */
  lemma CutPoints(i: nat, d: nat, n: nat)
    requires n > 0 && i < n && n <= d < MaxChunkMs * n
    ensures (i + 1) * d / n <= d
    ensures 1 <= (i + 1) * d / n - i * d / n <= MaxChunkMs
  {
    MulMono(i + 1, n, d);
    DivMono((i + 1) * d, n * d, n);
    DivUnique(n * d, n, d, 0);
    StepBounds(i, d, n);
  }

  /** Piece i of a chunk longer than 30 s runs from `start + i*d/n` to
      `start + (i+1)*d/n` unclamped, and holds between 1 ms and 30 s. */
  lemma PieceAt(s: Span, i: nat)
    requires Length(s) > MaxChunkMs && i < PieceCount(Length(s))
    ensures var d := Length(s); var n := PieceCount(d);
      && Piece(s, n, i) == Span(s.start + i * d / n, s.start + (i + 1) * d / n)
      && 0 < Length(Piece(s, n, i)) <= MaxChunkMs
  {
    var d: nat := s.end - s.start;
    var n := PieceCount(d);
    PieceCountBounds(d);
    CutPoints(i, d, n);
  }

  /** A chunk longer than 30 s splits into `d/30000 + 1` pieces that tile it,
      each holding audio and at most 30 s of it; the clamp never fires. */
  lemma PiecesShape(s: Span)
    requires Length(s) > MaxChunkMs
    ensures var p := Pieces(s);
      && |p| == Length(s) / MaxChunkMs + 1
      && Tiles(p, s.start, s.end)
      && (forall k :: 0 <= k < |p| ==> 0 < Length(p[k]) <= MaxChunkMs)
  {
    var p := Pieces(s);
    forall k | 0 <= k < |p| ensures 0 < Length(p[k]) <= MaxChunkMs {
      PieceAt(s, k);
    }
    PiecesContiguous(s);
    PiecesEnds(s);
  }

  lemma PiecesContiguous(s: Span)
    requires Length(s) > MaxChunkMs
    ensures var p := Pieces(s);
      forall k :: 0 <= k < |p| - 1 ==> p[k].end == p[k + 1].start
  {
    var p := Pieces(s);
    forall k | 0 <= k < |p| - 1 ensures p[k].end == p[k + 1].start {
      PieceAt(s, k);
      PieceAt(s, k + 1);
    }
  }

  lemma PiecesEnds(s: Span)
    requires Length(s) > MaxChunkMs
    ensures var p := Pieces(s);
      p[0].start == s.start && p[|p| - 1].end == s.end
  {
    var d: nat := s.end - s.start;
    var n := PieceCount(d);
    var p := Pieces(s);
    assert p[0] == Piece(s, n, 0);
    assert p[0].start == s.start + 0 * d / n;
    assert p[n - 1] == Piece(s, n, n - 1);
    WholeCut(d, n);
    assert s.start + (n - 1 + 1) * d / n == s.end;
  }

  /** The last cut point `n*d/n` is the chunk's end. */
  lemma WholeCut(d: nat, n: nat)
    requires n > 0
    ensures (n - 1 + 1) * d / n == d
  {
    DivUnique(n * d, n, d, 0);
  }

  /** Every chunk the split pass answers is at most 30 s long. */
  lemma {:induction false} SplitAllBounded(ms: seq<Span>)
    ensures forall k :: 0 <= k < |SplitAll(ms)| ==> Length(SplitAll(ms)[k]) <= MaxChunkMs
    decreases |ms|
  {
    if ms != [] {
      var init := SplitAll(ms[..|ms| - 1]);
      var s := ms[|ms| - 1];
      SplitAllBounded(ms[..|ms| - 1]);
      if Length(s) > MaxChunkMs {
        PiecesShape(s);
      }
      var p := Pieces(s);
      forall k | 0 <= k < |SplitAll(ms)| ensures Length(SplitAll(ms)[k]) <= MaxChunkMs {
        if k >= |init| {
          assert SplitAll(ms)[k] == p[k - |init|];
        } else {
          assert SplitAll(ms)[k] == init[k];
        }
      }
    }
  }

  /** `find_speech_segments` of the earlier module: `nonsilent` is None when
      the audio cannot be read, which falls back to 30 s fixed chunks over
      `fileLength` (None when the fallback cannot open it either). */
  method FindSpeechSegments(nonsilent: Option<seq<Span>>, fileLength: Option<nat>)
    returns (chunks: seq<Span>)
    ensures nonsilent.None? ==> chunks == FixedChunks(fileLength, MaxChunkMs)
    ensures nonsilent.Some? ==> chunks == SplitAll(Merged(nonsilent.value))
    ensures nonsilent.Some? ==> forall k :: 0 <= k < |chunks| ==> Length(chunks[k]) <= MaxChunkMs
  {
    if nonsilent.None? {
      chunks := CreateFixedChunks(fileLength, MaxChunkMs);
      return;
    }
    var merged := MergeClose(nonsilent.value);
    chunks := SplitLong(merged);
    SplitAllBounded(merged);
  }
}
