/** Millisecond intervals `(start_ms, end_ms)` as the offline segmenters
    produce them, the fixed-size fallback chunker both SenseVoice modules share,
    and the `MM:SS` rendering of a time. */
module Intervals {
  import opened Common
  import opened Text

  /** A half-open stretch of audio, in milliseconds. */
  datatype Span = Span(start: nat, end: nat)

  function Length(s: Span): int {
    s.end - s.start
  }

  /** The spans cover `[from, to]` without gap or overlap, in order: the first
      starts at `from`, each starts where the previous one ended, the last ends
      at `to`, and none runs backwards. */
  predicate Tiles(spans: seq<Span>, from: int, to: int) {
    && (spans == [] ==> from == to)
    && (spans != [] ==> spans[0].start == from && spans[|spans| - 1].end == to)
    && (forall k :: 0 <= k < |spans| - 1 ==> spans[k].end == spans[k + 1].start)
    && (forall k :: 0 <= k < |spans| ==> spans[k].start <= spans[k].end)
  }

  lemma TilesCons(h: Span, rest: seq<Span>, to: int)
    requires h.start <= h.end && Tiles(rest, h.end, to)
    ensures Tiles([h] + rest, h.start, to)
  {
    var r := [h] + rest;
    forall k | 0 <= k < |r| - 1 ensures r[k].end == r[k + 1].start {
      if k > 0 {
        assert r[k] == rest[k - 1] && r[k + 1] == rest[k];
      }
    }
  }

  lemma TilesAppend(a: seq<Span>, b: seq<Span>, x: int, y: int, z: int)
    requires Tiles(a, x, y) && Tiles(b, y, z)
    ensures Tiles(a + b, x, z)
  {
    var r := a + b;
    forall k | 0 <= k < |r| - 1 ensures r[k].end == r[k + 1].start {
      if k < |a| - 1 {
        assert r[k] == a[k] && r[k + 1] == a[k + 1];
      } else if k == |a| - 1 {
        assert r[k] == a[k] && r[k + 1] == b[0];
      } else {
        assert r[k] == b[k - |a|] && r[k + 1] == b[k + 1 - |a|];
      }
    }
    forall k | 0 <= k < |r| ensures r[k].start <= r[k].end {
      if k < |a| { assert r[k] == a[k]; } else { assert r[k] == b[k - |a|]; }
    }
  }

  /** The chunks `(s, min(s + chunk, duration))` for `s` in
      `range(start, duration, chunk)`. */
  function FixedFrom(start: nat, duration: nat, chunk: nat): seq<Span>
    requires chunk > 0
    decreases duration - start
  {
    if start >= duration then []
    else [Span(start, if start + chunk < duration then start + chunk else duration)]
         + FixedFrom(start + chunk, duration, chunk)
  }

  /** Fixed chunks tile `[start, duration]`; each holds audio and at most
      `chunk` milliseconds of it, every one but the last exactly `chunk`, and
      there are `ceil((duration - start) / chunk)` of them. */
  lemma {:induction false} FixedFromTiles(start: nat, duration: nat, chunk: nat)
    requires chunk > 0 && start <= duration
    ensures var r := FixedFrom(start, duration, chunk);
      && Tiles(r, start, duration)
      && (forall k :: 0 <= k < |r| ==> 0 < Length(r[k]) <= chunk)
      && (forall k :: 0 <= k < |r| - 1 ==> Length(r[k]) == chunk)
      && |r| == (duration - start + chunk - 1) / chunk
    decreases duration - start
  {
    FixedFromShape(start, duration, chunk);
    FixedFromCount(start, duration, chunk);
  }

  lemma {:induction false} FixedFromShape(start: nat, duration: nat, chunk: nat)
    requires chunk > 0 && start <= duration
    ensures var r := FixedFrom(start, duration, chunk);
      && Tiles(r, start, duration)
      && (forall k :: 0 <= k < |r| ==> 0 < Length(r[k]) <= chunk)
      && (forall k :: 0 <= k < |r| - 1 ==> Length(r[k]) == chunk)
    decreases duration - start
  {
    var r := FixedFrom(start, duration, chunk);
    if start < duration {
      var h := r[0];
      if start + chunk < duration {
        FixedFromShape(start + chunk, duration, chunk);
        var rest := FixedFrom(start + chunk, duration, chunk);
        TilesCons(h, rest, duration);
        assert r == [h] + rest;
        ChunksCons(h, rest, chunk);
      } else {
        assert FixedFrom(start + chunk, duration, chunk) == [];
      }
    }
  }

  /** A full chunk in front of chunks of at most `chunk`, all full but the
      last. */
  lemma ChunksCons(h: Span, rest: seq<Span>, chunk: nat)
    requires Length(h) == chunk > 0
    requires forall k :: 0 <= k < |rest| ==> 0 < Length(rest[k]) <= chunk
    requires forall k :: 0 <= k < |rest| - 1 ==> Length(rest[k]) == chunk
    ensures var r := [h] + rest;
      && (forall k :: 0 <= k < |r| ==> 0 < Length(r[k]) <= chunk)
      && (forall k :: 0 <= k < |r| - 1 ==> Length(r[k]) == chunk)
  {
    var r := [h] + rest;
    forall k | 0 < k < |r| ensures r[k] == rest[k - 1] { }
  }

  lemma {:induction false} FixedFromCount(start: nat, duration: nat, chunk: nat)
    requires chunk > 0 && start <= duration
    ensures |FixedFrom(start, duration, chunk)| == (duration - start + chunk - 1) / chunk
    decreases duration - start
  {
    if start < duration {
      if start + chunk < duration {
        FixedFromCount(start + chunk, duration, chunk);
        DivStep(duration - (start + chunk) + chunk - 1, chunk);
      } else {
        DivOne(duration - start + chunk - 1, chunk);
      }
    }
  }

  lemma DivStep(x: nat, c: nat)
    requires c > 0
    ensures (x + c) / c == x / c + 1
  {
    var q, m := x / c, x % c;
    assert x == q * c + m;
    assert x + c == (q + 1) * c + m;
    DivUnique(x + c, c, q + 1, m);
  }

  lemma DivOne(x: nat, c: nat)
    requires c > 0 && c <= x < 2 * c
    ensures x / c == 1
  {
    DivUnique(x, c, 1, x - c);
  }

  /** Euclidean division has one quotient. */
  lemma DivUnique(x: nat, c: nat, q: int, m: int)
    requires c > 0 && 0 <= m < c && x == q * c + m
    ensures x / c == q
  {
    var q', m' := x / c, x % c;
    assert x == q' * c + m';
    if q' < q {
      MulAtLeast(q - q', c);
    } else if q' > q {
      MulAtLeast(q' - q, c);
    }
  }

  lemma MulAtLeast(d: int, c: nat)
    requires d >= 1
    ensures d * c >= c
  {
    assert d * c == c + (d - 1) * c;
  }

  /** The length of the fallback chunk when the audio cannot be opened. */
  const DefaultChunk: Span := Span(0, 300000)

  /** `_create_fixed_chunks`: the audio's length `duration` is None when it
      cannot be opened.  A zero `chunk` makes `range` raise, which the bare
      `except` turns into the default chunk as well; a negative one makes the
      range empty. */
  function FixedChunks(duration: Option<nat>, chunk: int): seq<Span> {
    if duration.None? || chunk == 0 then [DefaultChunk]
    else if chunk < 0 then []
    else FixedFrom(0, duration.value, chunk)
  }

  /** The fallback answers one five-minute chunk when it fails, and otherwise
      tiles the whole audio with chunks of at most `chunk` milliseconds, all but
      the last exactly that long. */
  lemma FixedChunksShape(duration: Option<nat>, chunk: int)
    ensures var r := FixedChunks(duration, chunk);
      && (duration.None? || chunk == 0 ==> r == [Span(0, 300000)])
      && (duration.Some? && chunk < 0 ==> r == [])
      && (duration.Some? && chunk > 0 ==>
            && Tiles(r, 0, duration.value)
            && (forall k :: 0 <= k < |r| ==> 0 < Length(r[k]) <= chunk)
            && (forall k :: 0 <= k < |r| - 1 ==> Length(r[k]) == chunk)
            && |r| == (duration.value + chunk - 1) / chunk)
  {
    if duration.Some? && chunk > 0 {
      FixedFromTiles(0, duration.value, chunk);
    }
  }

  /** The loop of `_create_fixed_chunks`. */
  method CreateFixedChunks(duration: Option<nat>, chunk: int) returns (chunks: seq<Span>)
    ensures chunks == FixedChunks(duration, chunk)
  {
    if duration.None? || chunk == 0 {
      return [DefaultChunk];
    }
    if chunk < 0 {
      return [];
    }
    var total := duration.value;
    chunks := [];
    var start: nat := 0;
    while start < total
      invariant chunks + FixedFrom(start, total, chunk) == FixedFrom(0, total, chunk)
      decreases total - start
    {
      var end := if start + chunk < total then start + chunk else total;
      chunks := chunks + [Span(start, end)];
      start := start + chunk;
    }
  }

  /** `_format_time` for a whole number of seconds: minutes, a colon, and the
      seconds within the minute, each zero-padded to two digits. */
  function FormatTime(seconds: nat): (s: string)
    ensures |s| >= 5 && s[|s| - 3] == ':'
  {
    Pad2RoundTrip(seconds % 60);
    Pad2(seconds / 60) + ":" + Pad2(seconds % 60)
  }

  /** `_format_time(ms / 1000)`: Python's floor division and modulo on the
      non-negative seconds agree with whole seconds, so only `ms / 1000`
      matters. */
  function FormatMillis(ms: nat): string {
    FormatTime(ms / 1000)
  }

  /** `s` is `M:SS` with digits only around the colon: the digits before it
      read as `minutes`, the two after it as `secs`. */
  predicate ReadsBackAs(s: string, minutes: nat, secs: nat) {
    && |s| >= 3 && s[|s| - 3] == ':'
    && IsDigits(s[..|s| - 3]) && IsDigits(s[|s| - 2..])
    && DecimalValue(s[..|s| - 3]) == minutes && DecimalValue(s[|s| - 2..]) == secs
  }

  /** Reading an `MM:SS` string back gives the seconds formatted: what precedes
      the colon is the whole minutes, the two digits after it the seconds
      within the minute; below 100 minutes the string is exactly five
      characters. */
  lemma FormatTimeRoundTrip(seconds: nat)
    ensures ReadsBackAs(FormatTime(seconds), seconds / 60, seconds % 60)
    ensures seconds < 6000 ==> |FormatTime(seconds)| == 5
  {
    var m := Pad2(seconds / 60);
    var c := Pad2(seconds % 60);
    Pad2RoundTrip(seconds / 60);
    Pad2RoundTrip(seconds % 60);
    ColonSplit(m, c);
  }

  /** The two fields around the colon of `m:c`, for a two-character `c`. */
  lemma ColonSplit(m: string, c: string)
    requires |c| == 2
    ensures var s := m + ":" + c;
      |s| == |m| + 3 && s[..|s| - 3] == m && s[|s| - 2..] == c
  {
    var s := m + ":" + c;
    assert s[..|m|] == m;
    assert s[|m| + 1..] == c;
  }
}
