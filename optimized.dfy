/** The optimized endpoint and the socket stream of optimized_transcribe.py.

    The endpoint picks a stream (Opus first), then either transcribes it on
    the server with SenseVoice, for the languages SenseVoice serves, or hands
    its URL to the client.  On the server the decoder's output is read in
    30-second pieces and only pieces longer than one second are transcribed;
    the texts are joined with spaces.

    The socket handler reads the first audio-only stream in 10-second pieces
    and sends one numbered event per piece longer than one second, then one
    completion event with the number sent.

    A read is the samples one call of `read` returns (an empty one is the end
    of the stream); SenseVoice is the oracle `transcribe`. */
module Optimized {
  import opened Common
  import opened Text
  import opened Sorting
  import opened Formats
  import opened Streams

  /** The languages transcribed on the server. */
  const ServerLanguages: set<string> := {"zh", "zh-CN", "zh-TW", "yue", "ja", "ko"}

  /** The server path is taken for a server language, and only when
      SenseVoice could be loaded. */
  predicate ServerSide(language: string, available: bool) {
    language in ServerLanguages && available
  }

  /** One second of 16 kHz audio: shorter pieces are skipped. */
  const MinSamples := 16000

  predicate LongEnough(piece: seq<int>) {
    |piece| > MinSamples
  }

  /** The pieces that are transcribed: those read before the end of the
      stream that hold more than a second of audio, in read order. */
  function Transcribed(received: seq<seq<int>>): seq<seq<int>> {
    Filter(UntilEof(received), LongEnough)
  }

  /** A piece is transcribed exactly when it is read before the end of the
      stream and holds more than a second; the skipped ones are the short
      ones, and nothing else is lost. */
  lemma TranscribedPieces(received: seq<seq<int>>)
    ensures forall k :: 0 <= k < |Transcribed(received)| ==>
      |Transcribed(received)[k]| > MinSamples && Transcribed(received)[k] in UntilEof(received)
    ensures multiset(Transcribed(received)) + multiset(Filter(UntilEof(received), (p: seq<int>) => !LongEnough(p)))
      == multiset(UntilEof(received))
  {
    FilterPartition(UntilEof(received), LongEnough, (p: seq<int>) => !LongEnough(p));
  }

  /** The texts SenseVoice gives for the pieces. */
  function TextsOf(pieces: seq<seq<int>>, language: string, transcribe: (seq<int>, string) -> string): seq<string> {
    seq(|pieces|, k requires 0 <= k < |pieces| => transcribe(pieces[k], language))
  }

  /** One more piece transcribed. */
  lemma TextsOfExtend(pieces: seq<seq<int>>, piece: seq<int>, language: string, transcribe: (seq<int>, string) -> string)
    ensures TextsOf(pieces + [piece], language, transcribe) == TextsOf(pieces, language, transcribe) + [transcribe(piece, language)]
  {
  }

  /** What the extractor reports about the video. */
  datatype VideoInfo = VideoInfo(formats: seq<Format>, duration: Option<int>)

  /** `info.get('duration', 0)`, with a key that holds None read as missing
      and the duration a whole number of seconds. */
  function DurationOf(info: VideoInfo): int {
    match info.duration
    case Some(d) => d
    case None => 0
  }

  /** The endpoint's answers: the 400 when no audio stream exists, the
      server transcript, or the stream handed to the client. */
  datatype Response =
    | NoAudioStream
    | ServerTranscript(transcript: string, language: string, duration: int)
    | ClientSide(audioUrl: string, duration: int, codec: Option<string>)

  /** The read loop of the server path. */
  method TranscribePieces(received: seq<seq<int>>, language: string, transcribe: (seq<int>, string) -> string)
    returns (transcripts: seq<string>)
    ensures transcripts == TextsOf(Transcribed(received), language, transcribe)
  {
    transcripts := [];
    var i := 0;
    while true
      invariant 0 <= i <= |received|
      invariant forall k :: 0 <= k < i ==> received[k] != []
      invariant transcripts == TextsOf(Filter(received[..i], LongEnough), language, transcribe)
      decreases |received| - i
    {
      var piece := if i < |received| then received[i] else [];
      if piece == [] {
        break;
      }
      FilterExtend(received, i, LongEnough);
      if |piece| > MinSamples {
        TextsOfExtend(Filter(received[..i], LongEnough), piece, language, transcribe);
        transcripts := transcripts + [transcribe(piece, language)];
      }
      i := i + 1;
    }
    UntilEofAt(received, i);
  }

  /** `transcribe_url_optimized`: the stream chosen, then the route. */
  method TranscribeUrlOptimized(info: VideoInfo, language: string, available: bool,
                                received: seq<seq<int>>, transcribe: (seq<int>, string) -> string)
    returns (resp: Response)
    ensures BestAudio(info.formats).None? ==> resp == NoAudioStream
    ensures BestAudio(info.formats).Some? && ServerSide(language, available) ==>
      resp == ServerTranscript(Join(" ", TextsOf(Transcribed(received), language, transcribe)), language, DurationOf(info))
    ensures BestAudio(info.formats).Some? && !ServerSide(language, available) ==>
      resp == ClientSide(BestAudio(info.formats).value.url, DurationOf(info), BestAudio(info.formats).value.acodec)
  {
    var best := ChooseBestAudio(info.formats);
    if best.None? {
      return NoAudioStream;
    }
    var audioUrl := best.value.url;
    var duration := DurationOf(info);
    if language in ServerLanguages && available {
      var transcripts := TranscribePieces(received, language, transcribe);
      resp := ServerTranscript(Join(" ", transcripts), language, duration);
    } else {
      resp := ClientSide(audioUrl, duration, best.value.acodec);
    }
  }

  // ---------------------------------------------------------------------
  // Socket stream
  // ---------------------------------------------------------------------

  datatype SocketEvent =
    | TranscriptChunk(chunk: nat, text: string, timestamp: nat)
    | TranscriptionComplete(totalChunks: nat)
    | StreamError(message: string)

  /** The placeholder text sent for chunk n. */
  function ChunkLabel(n: nat): string {
    "Chunk " + NatToDecimal(n) + " transcribed"
  }

  /** Events numbered 0 to count - 1, chunk n stamped at 10 n seconds. */
  function ChunkEvents(count: nat): seq<SocketEvent> {
    seq(count, n requires 0 <= n < count => TranscriptChunk(n, ChunkLabel(n), n * 10))
  }

  /** One more chunk sent. */
  lemma ChunkEventsExtend(count: nat)
    ensures ChunkEvents(count + 1) == ChunkEvents(count) + [TranscriptChunk(count, ChunkLabel(count), count * 10)]
  {
  }

  /** `stream_transcribe`: the chunk counter advances only for pieces that
      are sent, so the events are numbered without gaps, one per piece longer
      than a second, and the completion event carries their number. */
  method StreamTranscribeSocket(formats: seq<Format>, received: seq<seq<int>>) returns (events: seq<SocketEvent>)
    ensures StreamUrl(formats).None? ==> events == [StreamError("No audio stream found")]
    ensures StreamUrl(formats).Some? ==>
      events == ChunkEvents(|Transcribed(received)|) + [TranscriptionComplete(|Transcribed(received)|)]
  {
    var url := FindStreamUrl(formats);
    if url.None? {
      return [StreamError("No audio stream found")];
    }
    events := [];
    var chunkNum: nat := 0;
    var i := 0;
    while true
      invariant 0 <= i <= |received|
      invariant forall k :: 0 <= k < i ==> received[k] != []
      invariant chunkNum == |Filter(received[..i], LongEnough)|
      invariant events == ChunkEvents(chunkNum)
      decreases |received| - i
    {
      var piece := if i < |received| then received[i] else [];
      if piece == [] {
        break;
      }
      FilterExtend(received, i, LongEnough);
      if |piece| > MinSamples {
        ChunkEventsExtend(chunkNum);
        events := events + [TranscriptChunk(chunkNum, ChunkLabel(chunkNum), chunkNum * 10)];
        chunkNum := chunkNum + 1;
      }
      i := i + 1;
    }
    UntilEofAt(received, i);
    events := events + [TranscriptionComplete(chunkNum)];
  }
}
