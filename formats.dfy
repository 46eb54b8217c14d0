/** The entries of the extractor's `formats` list and the scans over it that
    pick the stream to decode: the first audio-only format (the streaming
    transcriber and the socket handler), and the first audio-only Opus
    format, else the first audio-only one (the optimized endpoint). */
module Formats {
  import opened Common
  import opened Text
  import opened Sorting

  /** One entry of the extractor's `formats` list; a None field is a
      missing key, and a missing URL is the empty string. */
  datatype Format = Format(url: string, acodec: Option<string>, vcodec: Option<string>, abr: Option<int>)

  /** `fmt.get('acodec') != 'none' and fmt.get('vcodec') == 'none'`. */
  predicate IsAudioOnly(f: Format) {
    f.acodec != Some("none") && f.vcodec == Some("none")
  }

  /** `fmt.get('acodec', '')`. */
  function AcodecText(f: Format): string {
    match f.acodec
    case Some(s) => s
    case None => ""
  }

  /** An audio-only format whose codec name contains `opus`. */
  predicate IsOpusAudio(f: Format) {
    IsAudioOnly(f) && Contains(AcodecText(f), "opus")
  }

  // ---------------------------------------------------------------------
  // The first audio-only format
  // ---------------------------------------------------------------------

  /** The URL of the first audio-only format; an empty URL is as good as
      none, since the caller gives up on any URL that is not truthy. */
  function StreamUrl(formats: seq<Format>): Option<string> {
    match FirstIndex(formats, IsAudioOnly, 0)
    case None => None
    case Some(i) => if formats[i].url == "" then None else Some(formats[i].url)
  }

  /** With no audio-only format there is no URL; otherwise the URL is the one
      the first audio-only format carries, unless that one is empty. */
  lemma StreamUrlIsFirst(formats: seq<Format>)
    ensures (forall k :: 0 <= k < |formats| ==> !IsAudioOnly(formats[k])) ==> StreamUrl(formats).None?
    ensures forall i :: 0 <= i < |formats| && IsAudioOnly(formats[i]) && (forall k :: 0 <= k < i ==> !IsAudioOnly(formats[k])) ==>
      StreamUrl(formats) == (if formats[i].url == "" then None else Some(formats[i].url))
    ensures StreamUrl(formats).Some? ==> StreamUrl(formats).value != ""
  {
  }

  /** The loop that stops at the first audio-only format, then the test that
      it found a URL. */
  method FindStreamUrl(formats: seq<Format>) returns (url: Option<string>)
    ensures url == StreamUrl(formats)
  {
    var audioUrl := "";
    var i := 0;
    while i < |formats|
      invariant 0 <= i <= |formats|
      invariant forall k :: 0 <= k < i ==> !IsAudioOnly(formats[k])
    {
      if IsAudioOnly(formats[i]) {
        audioUrl := formats[i].url;
        break;
      }
      i := i + 1;
    }
    url := if audioUrl == "" then None else Some(audioUrl);
  }

  // ---------------------------------------------------------------------
  // Opus first
  // ---------------------------------------------------------------------

  /** The first audio-only Opus format, else the first audio-only format. */
  function BestAudio(formats: seq<Format>): (r: Option<Format>)
    ensures r.None? <==> forall k :: 0 <= k < |formats| ==> !IsAudioOnly(formats[k])
    ensures r.Some? ==> IsAudioOnly(r.value) && r.value in formats
    ensures (exists k :: 0 <= k < |formats| && IsOpusAudio(formats[k])) ==> r.Some? && IsOpusAudio(r.value)
  {
    match FirstIndex(formats, IsOpusAudio, 0)
    case Some(i) => Some(formats[i])
    case None =>
      match FirstIndex(formats, IsAudioOnly, 0)
      case Some(i) => Some(formats[i])
      case None => None
  }

  /** The choice is the first Opus format in list order when there is one,
      and otherwise the first audio-only format in list order. */
  lemma BestAudioIsFirst(formats: seq<Format>)
    ensures forall i :: 0 <= i < |formats| && IsOpusAudio(formats[i]) && (forall k :: 0 <= k < i ==> !IsOpusAudio(formats[k])) ==>
      BestAudio(formats) == Some(formats[i])
    ensures (forall k :: 0 <= k < |formats| ==> !IsOpusAudio(formats[k])) ==>
      forall i :: 0 <= i < |formats| && IsAudioOnly(formats[i]) && (forall k :: 0 <= k < i ==> !IsAudioOnly(formats[k])) ==>
        BestAudio(formats) == Some(formats[i])
  {
  }

  /** The selection loop: an Opus format ends the scan, any other audio-only
      format is kept only when nothing was kept before it. */
  method ChooseBestAudio(formats: seq<Format>) returns (best: Option<Format>)
    ensures best == BestAudio(formats)
  {
    best := None;
    ghost var first: nat := 0;
    var i := 0;
    while i < |formats|
      invariant 0 <= i <= |formats|
      invariant forall k :: 0 <= k < i ==> !IsOpusAudio(formats[k])
      invariant best.None? ==> forall k :: 0 <= k < i ==> !IsAudioOnly(formats[k])
      invariant best.Some? ==> first < i && best.value == formats[first] && IsAudioOnly(formats[first])
      invariant best.Some? ==> forall k :: 0 <= k < first ==> !IsAudioOnly(formats[k])
    {
      var f := formats[i];
      if IsAudioOnly(f) {
        if Contains(AcodecText(f), "opus") {
          best := Some(f);
          break;
        } else if best.None? {
          best := Some(f);
          first := i;
        }
      }
      i := i + 1;
    }
  }
}
