# YouTube downloader and transcriber: a verified model of its core

The service downloads YouTube videos and transcribes their audio. This
project models the parts of it that decide things with integers and
sequences, and proves what they promise:

- **Job bookkeeping** (`app.py`): the progress table written by the
  downloader's hook, the `/download` request check, and the `/downloads`
  listing.
- **Resource manager** (`resource_manager.py`):
  - the per-user ledger of running downloads and its admission gate;
  - the disk-budget comparisons;
  - the janitor's choice of files to delete (expired first, then the
    oldest over the per-user cap);
  - the eviction of stale in-memory records.
- **Whisper streaming transcriber** (`whisper_transcription.py`):
  - the choice of an audio-only format;
  - the pause-bounded segmenter over the decoder's 0.1 s reads;
  - language detection pinned on the first segment;
  - the events the generator yields, and its non-streaming twin;
  - `WhisperTranscriber.transcribe_streaming`.
- **SenseVoice transcriber** (`sensevoice_transcription.py`):
  - the pause-based segment boundaries over a 10 ms silence mask;
  - the fixed-size fallback chunks and the `MM:SS` timestamps;
  - the model table and the per-name model cache;
  - the collection of per-segment results into one transcript;
  - the language guard on array input.
- **Earlier SenseVoice segmenter** (`sensevoice_transcription_broken.py`):
  non-silent stretches merged across gaps under 500 ms, then chunks over
  30 s split into equal pieces.
- **Parallel and streaming transcribers** (`streaming_transcribe.py`):
  - 30 s windows that overlap by 2 s;
  - the index-ordered combination of chunk results;
  - the byte buffer that re-chunks the decoder's output into 960000-byte
    pieces.
- **Optimized endpoint and socket stream** (`optimized_transcribe.py`):
  - the Opus-first stream choice;
  - the server-side/client-side routing rule;
  - the filter that only transcribes reads of more than one second;
  - the gap-free numbering of socket events.

Everything outside the program's own logic is a parameter:

- The clock is `now` (seconds) or `nowMs`.
- The downloads tree is a map from user id to that user's files.
- What the video extractor reports is a sequence of `Format` records.
- What the decoder pipe returns is a sequence of reads, where an empty read
  ends the stream.
- The energy test of a frame is a boolean.
- The speech models are oracle functions.

Where the source keeps state in a dictionary that methods update, the model
is a class with that field:

- `Progress.ProgressStore`;
- `Resources.ResourceManager`;
- `SenseVoice.Transcriber`.

Each loop is a method proved equal to a function that specifies it. The
functions' properties are proved as lemmas.

Time in the SenseVoice segmenter runs in 10 ms ticks. A boundary at tick
`i` lies at `10 * i` ms, and the audio is `samples / 16` ms long. The earlier
segmenter splits a chunk at the exact cut points `start + i * d / n`.

The two SenseVoice modules define `_create_fixed_chunks` and `_format_time`
identically:

- sensevoice_transcription.py:174-188 and sensevoice_transcription_broken.py:123-137;
- sensevoice_transcription.py:486-490 and sensevoice_transcription_broken.py:361-365.

Each is modelled once, in `Intervals`.

Modules (one file each):

| module | file |
|---|---|
| `Common` | `Option`, `byte` |
| `Text` | decimal numerals, two-digit padding, join, strip, substring test |
| `Sorting` | stable key sort, filter, first index |
| `Streams` | reads up to the end of a stream |
| `Intervals` | spans, tiling, fixed chunks, `MM:SS` |
| `Formats` | format records and the two first-match scans |
| `Progress` | app.py |
| `Resources` | resource_manager.py |
| `Whisper` | whisper_transcription.py |
| `SenseVoice` | sensevoice_transcription.py |
| `SpeechMerge` | sensevoice_transcription_broken.py |
| `Parallel` | streaming_transcribe.py |
| `Optimized` | optimized_transcribe.py |

## Model

| member | source | states |
|---|---|---|
| Progress.HookUpdate | app.py:18-31 | A `downloading` event sets the job's entry to its percent and speed, each `N/A` when missing. A `finished` event sets it to the file name. Any other status leaves the table as it was. No other job's entry changes. |
| Progress.AfterDownload | app.py:55-87 | After a download's hook events, a raised exception leaves the job's entry as the error message. Other jobs' entries are untouched. |
| Progress.ProgressStore.constructor | app.py:11-12 | The progress table starts empty. |
| Progress.ProgressStore.Hook | app.py:14-31 | One hook call updates the table as `HookUpdate` says. It never stores `not_found`, and it leaves the side tables alone. |
| Progress.ProgressStore.RunDownload | app.py:55-87 | Running a download applies every hook event in order, then the error overwrite. |
| Progress.ProgressStore.GetProgress | app.py:89-92 | Answers `not_found` exactly when the id was never written; otherwise the stored entry. Changes nothing. |
| Progress.HandleDownloadRequest | app.py:37-53 | A request is refused iff its url is missing or empty. Otherwise the job id is the decimal numeral of the current time in milliseconds (it reads back to that time). |
| Progress.RegularFiles | app.py:100-107 | The listing holds a row for every regular file and only for regular files. |
| Progress.ListDownloads | app.py:94-111 | A missing directory lists nothing. Otherwise the rows are exactly the regular files (as a multiset), newest modification time first. |
| Resources.Begin | resource_manager.py:34-38 | Starting a download raises the user's count by exactly one (from 0 when absent). No other user's entry changes. The ledger stays free of zero or negative counts. |
| Resources.End | resource_manager.py:41-47 | Finishing is a no-op for an unknown user. Otherwise the count drops by one, floored at zero, and a zero entry is deleted. No other entry changes, and no zero count is ever stored. |
| Resources.EndUndoesBegin | resource_manager.py:34-47 | A finish right after a start restores the ledger exactly. |
| Resources.GatedRunBounded | resource_manager.py:26-47 | If every start follows a granted admission check, no user's count ever exceeds 3 or falls to 0 stored, whatever the interleaving of starts and finishes. |
| Resources.DiskSpaceOk | resource_manager.py:49-78 | The check passes iff the probe succeeded, at most 5 GiB are used and at least 1 GiB is free, as real-valued GiB comparisons. |
| Resources.OldestFirst | resource_manager.py:101-102 | The sorted listing is a permutation of the directory, in ascending modification time. |
| Resources.Expired | resource_manager.py:104-106 | The files deleted for age are sorted oldest first and all older than 24 hours. |
| Resources.Recent | resource_manager.py:116 | The remaining files are sorted oldest first and none is older than 24 hours. |
| Resources.ExpiredRecentPartition | resource_manager.py:104-116 | Expired and remaining files together are exactly the directory's files. |
| Resources.Cleanup | resource_manager.py:80-130 | The intended sweep changes only this user's directory. A kept directory is non-empty, within the cap and free of expired files. The directory is removed exactly when nothing is kept. |
| Resources.DeleteExpired | resource_manager.py:101-113 | The loop deletes exactly the expired files, in oldest-first order. |
| Resources.CleanupUserFilesAsWritten | resource_manager.py:80-136 | As written: the expired files are deleted, then the handler swallows the failing cap check, so the directory keeps every recent file and is never removed. A missing directory is a no-op. |
| Resources.PopOldest | resource_manager.py:116-125 | The popping loop drops the oldest files and keeps the newest `maxUserFiles`, losing nothing. |
| Resources.CleanupUserFiles | resource_manager.py:80-136 | The corrected cleanup ends in the intended sweep's tree. Deleted plus kept files are exactly the directory's files, and the deletions run oldest first. |
| Resources.SweepSplit | resource_manager.py:101-125 | Expired-then-popped deletions and the kept files partition the directory, the deletions are in oldest-first order, and what is kept is the intended sweep's directory. |
| Resources.ExpiredBeforeRecent | resource_manager.py:101-118 | Deleting the expired files and then the oldest remaining ones is deleting in one oldest-first order. |
| Resources.AsWrittenKeepsEmptyDirectory | resource_manager.py:116-136 | A directory holding one two-day-old file is left empty but present by the code as written. The intended sweep removes it. |
| Resources.CleanupEachIndependent | resource_manager.py:138-145 | Cleaning users one after another gives each listed user's directory its own sweep, whatever the order. Unlisted users are untouched. |
| Resources.CleanupAllUsers | resource_manager.py:138-145 | After the janitor's pass every user's directory is its own intended sweep, and no directory appears. |
| Resources.CleanupAllUsersAsWritten | resource_manager.py:138-145 | As written, the janitor's pass leaves every directory present, holding exactly its files younger than a day, even when none is left. |
| Resources.ResourceManager.constructor | resource_manager.py:16-18 | The ledger starts empty. |
| Resources.ResourceManager.CanStartDownload | resource_manager.py:26-32 | Admission is granted iff the user's count (0 when absent) is under 3. State is unchanged. |
| Resources.ResourceManager.StartDownload | resource_manager.py:34-38 | The ledger becomes `Begin` of the old ledger and keeps its no-zero invariant. |
| Resources.ResourceManager.FinishDownload | resource_manager.py:41-47 | The ledger becomes `End` of the old ledger and keeps its no-zero invariant. |
| Resources.ResourceManager.CleanupMemory | resource_manager.py:147-176 | Every id with a timestamp over an hour old is removed from both the progress and the timestamp tables, whatever its status. Ids without a timestamp stay. Exactly the users with a missing or empty directory lose their download list. Nothing else changes. |
| Formats.StreamUrlIsFirst | streaming_transcribe.py:88-96 | With no audio-only format there is no URL. Otherwise the URL is that of the first audio-only format in list order, unless it is empty. A URL found is never empty. |
| Formats.FindStreamUrl | streaming_transcribe.py:89-96 | The scan answers the URL of the first audio-only format (none when empty or absent). |
| Formats.BestAudio | optimized_transcribe.py:27-39 | No choice iff no format is audio-only. A choice is an audio-only format of the list. It is Opus whenever any audio-only Opus format exists. |
| Formats.BestAudioIsFirst | optimized_transcribe.py:28-36 | The choice is the first Opus audio-only format in list order. Without one, it is the first audio-only format. |
| Formats.ChooseBestAudio | optimized_transcribe.py:28-36 | The loop that breaks on Opus and otherwise keeps the first audio-only format computes `BestAudio`. |
| Whisper.AudioCandidates | whisper_transcription.py:336-343 | The candidates are exactly the audio-only formats, as a multiset, ordered by descending bitrate (a missing bitrate counts 0). |
| Whisper.CandidatesKeepListOrder | whisper_transcription.py:336-343 | The candidates are a stable sort of the audio-only formats by descending bitrate: the same formats, and those of any one bitrate in their order in the format list, so a bitrate tie goes to the earlier format. |
| Whisper.FirstWith | whisper_transcription.py:347-350 | The inner scan finds the first candidate whose codec names the preference, and none when no candidate does. |
| Whisper.Preferred | whisper_transcription.py:346-352 | The first preference among mp4a, m4a, opus, vorbis that any candidate matches is chosen, with its first matching candidate. No earlier preference matches any candidate. |
| Whisper.AudioOnlyKept | whisper_transcription.py:338-340 | The audio-only filter is empty iff no format is audio-only. |
| Whisper.AudioOnly | whisper_transcription.py:336-340 | The loop keeps exactly the audio-only formats, in order. |
| Whisper.FirstMatching | whisper_transcription.py:347-350 | The loop answers the first candidate matching the preference. |
| Whisper.PreferredFormat | whisper_transcription.py:346-355 | The preferred candidate, else the top-bitrate one, else none. |
| Whisper.SelectAudioFormat | whisper_transcription.py:335-359 | The loops choose `ChosenFormat`. No format is chosen iff no format is audio-only. A chosen format is audio-only and comes from the list. |
| Whisper.ChosenHasTopBitrate | whisper_transcription.py:338-355 | With an audio-only format present, one is chosen. Its bitrate is the highest among the audio-only formats whose codec names the preference that matched, or among all audio-only formats when none matched. |
| Whisper.Split | whisper_transcription.py:403-496 | Every segment holds at least one second. One closed at the limit holds at least 30 s. Only the last can be the end-of-stream segment. |
| Whisper.Leftover | whisper_transcription.py:407-409 | What is dropped at the end of the stream is shorter than one second. |
| Whisper.SplitCoversStream | whisper_transcription.py:403-496 | The segments laid end to end, followed by the dropped tail, are exactly the samples read, in order. |
| Whisper.SplitBounded | whisper_transcription.py:436-460 | With reads of at most 1600 samples, no segment reaches 30 s plus one read. |
| Whisper.BackendLanguage | whisper_transcription.py:473-477 | The backend receives None exactly for `auto`, and the language itself otherwise. |
| Whisper.TextsNonBlank | whisper_transcription.py:479-482 | No collected text is blank, and there is at most one per segment. Blank means made of the characters Python's `str.isspace` accepts, Unicode spaces included. |
| Whisper.ChunkEventsNumbered | whisper_transcription.py:462-491 | Every chunk event carries the pinned language and a segment number between 1 and the segment count. Numbers strictly increase. |
| Whisper.ChunkEventsAccepted | whisper_transcription.py:479-491 | A chunk event names a segment whose backend answer succeeded with a text that `str.strip()` does not empty. |
| Whisper.AcceptedSegmentsReported | whisper_transcription.py:479-491 | Every segment whose answer is accepted has its event, with its text stripped of leading and trailing Unicode whitespace and with its number. |
| Whisper.EventsCarryTexts | whisper_transcription.py:479-502 | The chunk events carry the transcript's texts, in order. |
| Whisper.StreamEvents | whisper_transcription.py:403-512 | A run yields chunk events and then exactly one final event, last. |
| Whisper.FinalJoinsChunks | whisper_transcription.py:501-512 | The final transcript is the space-join of the chunk events' texts. `chunks_processed` counts every segment closed, accepted or not. |
| Whisper.ProcessSegment | whisper_transcription.py:462-491 | Processing one more segment advances the count by one. Detection runs iff it is segment 1 and the language is `auto`. Texts and events become those of the run with this segment appended. |
| Whisper.SegmentAppended | whisper_transcription.py:464-491 | Closing one more segment extends the texts and events by that segment's own, in the language pinned on segment 1. |
| Whisper.SplitStepCut | whisper_transcription.py:436-460 | The segments still to come after read `i`, when that read passes the closing test: its own segment, then the segments from an empty buffer and silence run. |
| Whisper.SplitStepCarry | whisper_transcription.py:436-460 | The segments still to come after read `i`, when that read does not close a segment: those of the next read with the grown buffer and silence run. |
| Whisper.ReadFrame | whisper_transcription.py:436-496 | One turn of the loop keeps the buffer under 30 s and keeps the counters, texts and events equal to those of the segments closed so far. |
| Whisper.FinishStream | whisper_transcription.py:407-512 | At end of stream a buffer of at least one second becomes the last segment (shorter tails are dropped), followed by the final event. |
| Whisper.Reads | whisper_transcription.py:403-407 | The reads processed are the prefix of the pipe's reads before the first empty one. All of them are non-empty. |
| Whisper.ReadUntilEnd | whisper_transcription.py:403-496 | Reading up to the first empty read leaves the texts and chunk events of the segments closed so far. It also leaves the buffer not yet closed, whose split completes the segments of the reads. Detection has run iff the language is `auto` and a segment closed. |
| Whisper.StreamTranscribe | whisper_transcription.py:381-512 | The read loop stops at the first empty read and yields exactly `StreamEvents` of the reads before it. Language detection runs once when the language is `auto` and some segment closes, and never otherwise. |
| Whisper.TranscribeFromUrlStreaming | whisper_transcription.py:308-512 | With no chosen format the only event is the error. Otherwise the stream's events. |
| Whisper.UrlAnswer | whisper_transcription.py:528-721 | With no format, the error. Otherwise a final result whose `chunks_processed` counts every segment and whose transcript joins the accepted texts. |
| Whisper.UrlAnswerAsWritten | whisper_transcription.py:701-726 | As written: with exit status 0 the answer is `UrlAnswer`'s. A non-zero exit status of the decoder turns any run into a failure. |
| Whisper.NonZeroExitLosesTranscript | whisper_transcription.py:704-726 | Whenever a stream was found and the decoder exits non-zero, the code as written answers a failure where the run had a final result. |
| Whisper.TranscribeFromUrl | whisper_transcription.py:528-730 | The non-streaming twin answers `UrlAnswer`: the generator's final event, or its error. |
| Whisper.TimedChunks | whisper_transcription.py:183-206 | At most one result per chunk, and only for a chunk whose transcription succeeded. Numbers run from 1 by input position and strictly increase. The timestamp is `(number - 1) * chunk_length`, and the text and language are the transcriber's. |
| Whisper.TimedChunksComplete | whisper_transcription.py:199-205 | Every chunk whose transcription succeeds has its result, numbered by its position from 1. |
| Whisper.TranscribeStreaming | whisper_transcription.py:168-206 | The loop detects the language on chunk 1 only (for `auto` or none) and yields `TimedChunks`. |
| Intervals.FixedFromTiles | sensevoice_transcription.py:160-164 | The fallback chunks tile `[start, duration]`, hold audio and at most `chunk` ms each, all but the last exactly `chunk`. There are `ceil((duration - start) / chunk)` of them. |
| Intervals.FixedChunksShape | sensevoice_transcription.py:174-188 | `_create_fixed_chunks` answers one 300000 ms chunk when the file cannot be read (or the chunk is 0), and none for a negative chunk. Otherwise it tiles the whole audio with chunks of at most `chunk` ms. |
| Intervals.CreateFixedChunks | sensevoice_transcription.py:174-188 | The loop computes the fixed chunks. |
| Intervals.FormatTime | sensevoice_transcription.py:486-490 | The rendering has a colon three characters from the end. |
| Intervals.FormatTimeRoundTrip | sensevoice_transcription.py:486-490 | The digits before the colon read back to the whole minutes. The two digits after it read back to the seconds within the minute, below 60. Under 100 minutes the text is exactly `MM:SS`. |
| SenseVoice.FindSpeechSegments | sensevoice_transcription.py:107-172 | The boundary loop and its fallbacks compute `SpeechSegments`. |
| SenseVoice.ScanTiles | sensevoice_transcription.py:141-153 | The cuts tile the time from the first start to the open segment's start. Each holds audio and at most the base duration. |
| SenseVoice.ScanPauses | sensevoice_transcription.py:145-153 | A cut shorter than the base duration is over 5 s long and ends where a voiced frame is followed by a silent one. |
| SenseVoice.ScanLastStart | sensevoice_transcription.py:141-157 | The open segment starts on an existing frame, and fewer than the base duration's worth of frames follow it. |
| SenseVoice.BoundariesShape | sensevoice_transcription.py:141-157 | With one silence flag per 10 ms frame, the boundaries tile the whole audio. All but the last are cuts. The last is under the base duration plus one frame. |
| SenseVoice.SpeechSegmentsShape | sensevoice_transcription.py:141-164 | The segments tile `[0, duration]`. All but the last hold at most 30 s, and one shorter than that ends on a pause after more than 5 s. The last is under 30 s plus one frame. |
| SenseVoice.ModelConfigFor | sensevoice_transcription.py:53-69 | The three known models live under `iic/` by their own name. Any other name gets the small model's configuration. |
| SenseVoice.SegmentText | sensevoice_transcription.py:291-293 | A segment's text is never empty and opens with the `[` of its timestamp range. |
| SenseVoice.SegmentResults | sensevoice_transcription.py:234-315 | One result per segment, numbered from 1 with the total. It carries a text iff the model answered. The text is the timestamped post-processed answer. |
| SenseVoice.KeptTexts | sensevoice_transcription.py:348-350 | The collected texts are non-empty and at most one per result. |
| SenseVoice.KeptSegmentTexts | sensevoice_transcription.py:348-370 | When every successful result has a text, the number of segments reported is the number of successful segments. |
| SenseVoice.Collect | sensevoice_transcription.py:344-371 | The collection fails iff some result carries an error, and then with the first one. Otherwise the kept texts are joined by blank lines and counted. |
| SenseVoice.Transcriber.constructor | sensevoice_transcription.py:33-51 | No model is cached. Availability is whether the post-processing import succeeded. |
| SenseVoice.Transcriber.LoadModel | sensevoice_transcription.py:71-97 | A successful load caches the model under its name and makes it current. A failed one changes nothing. |
| SenseVoice.Transcriber.GetModel | sensevoice_transcription.py:99-105 | The loader runs iff the name is not cached. A cached model is answered as is. A successful load caches the model and makes it current. A failed load leaves the cache unchanged. Other names are untouched. |
| SenseVoice.Transcriber.TranscribeStreaming | sensevoice_transcription.py:190-320 | Unavailability, a missing file and a failed load each yield one error. Otherwise one result per speech segment. The cache and the current model change only on a successful load. |
| SenseVoice.Transcriber.Transcribe | sensevoice_transcription.py:332-371 | The guards give their errors and leave the cache alone. With the model cached or freshly loaded, no segment fails the run in the model, where exceptions are left out (in the source a failing ffmpeg call at sensevoice_transcription.py:262 or a raising `generate` fails it). The transcript joins one timestamped text per answered segment, and `num_segments` counts them. Only a successful load changes the cache and the current model. |
| SenseVoice.Transcriber.TranscribeFromArray | sensevoice_transcription.py:373-469 | `auto` is refused before the model is touched. Otherwise, with the model cached or freshly loaded, the post-processed model text or the empty-result error. A failed load gives its error. Only a successful load changes the cache and the current model. |
| SpeechMerge.Merged | sensevoice_transcription_broken.py:80-93 | The merged chunks are no more than the stretches and empty iff they are. They start at the first stretch and end at the last. |
| SpeechMerge.MergeClose | sensevoice_transcription_broken.py:81-93 | The merge loop computes `Merged`. |
| SpeechMerge.MergedGaps | sensevoice_transcription_broken.py:85-91 | Consecutive merged chunks lie at least 500 ms apart. |
| SpeechMerge.MergedRuns | sensevoice_transcription_broken.py:81-93 | Each merged chunk starts at a stretch that opens a run (first, or 500 ms or more after its predecessor). It ends at the stretch that closes it: one chunk per run, in input order. |
| SpeechMerge.PieceAt | sensevoice_transcription_broken.py:102-111 | Piece `i` of a chunk over 30 s runs from `start + i*d/n` to `start + (i+1)*d/n`, unclamped, and holds between 1 ms and 30 s. |
| SpeechMerge.PiecesShape | sensevoice_transcription_broken.py:101-111 | A chunk over 30 s splits into `d/30000 + 1` pieces, each holding audio and at most 30 s. |
| SpeechMerge.PiecesContiguous | sensevoice_transcription_broken.py:106-111 | Consecutive pieces meet. |
| SpeechMerge.PiecesEnds | sensevoice_transcription_broken.py:106-111 | The pieces start at the chunk's start and end at its end. |
| SpeechMerge.SplitAllBounded | sensevoice_transcription_broken.py:95-113 | Every chunk the split pass answers is at most 30 s long. |
| SpeechMerge.SplitLong | sensevoice_transcription_broken.py:95-113 | The split loop computes the split of every merged chunk, in order. |
| SpeechMerge.FindSpeechSegments | sensevoice_transcription_broken.py:53-121 | On analysis failure, the fixed 30 s chunks. Otherwise the merged and split stretches, none over 30 s. |
| Parallel.Windows | streaming_transcribe.py:234-245 | There are no windows iff the start is at or past the end. Each window lies within the audio and holds at most one chunk. |
| Parallel.WindowsStepped | streaming_transcribe.py:235-243 | Window `k` starts `k` steps in and ends at `min(start + chunk, len)`. |
| Parallel.WindowsOverlap | streaming_transcribe.py:232-243 | Consecutive windows overlap by `chunk - step` unless the earlier one is clipped. The last ends at the end of the audio. |
| Parallel.WindowsCover | streaming_transcribe.py:237-243 | Every sample lies in some window. |
| Parallel.LastWindowInsidePrevious | streaming_transcribe.py:237-243 | When no more than 2 s remain for the last window, it lies inside the previous one, so those samples are transcribed twice. |
| Parallel.SplitWindowsShape | streaming_transcribe.py:226-245 | With 30 s chunks: no windows iff the audio is empty. Window `k` starts at `k * 448000` and holds 1 to 480000 samples. Windows share 32000 samples unless clipped, and every sample is covered. |
| Parallel.SplitAudio | streaming_transcribe.py:226-245 | The loop's chunks are exactly the audio of the windows, in order. |
| Parallel.CombineInIndexOrder | streaming_transcribe.py:193 | Whatever order the results arrive in, the transcript is their texts in ascending index order, joined by spaces. |
| Parallel.TranscribeFromUrl | streaming_transcribe.py:171-199 | One result per window, numbered in window order. The transcript is their texts in that order. |
| Parallel.RechunkKeepsBytes | streaming_transcribe.py:116-139 | The chunks handed on, laid end to end, are exactly the bytes read before the end of the stream: nothing lost, duplicated or reordered. |
| Parallel.RechunkSizes | streaming_transcribe.py:116-135 | With reads of at most 960000 bytes, and the buffer under 960000 bytes at every read (`BufferBounded`), every chunk but the last is exactly 960000 bytes. The last is non-empty and at most that. |
| Parallel.BufferBounded | streaming_transcribe.py:116-135 | With reads of at most 960000 bytes, the buffer holds fewer than 960000 bytes whenever the next read is issued. |
| Parallel.RechunkResumes | streaming_transcribe.py:119-135 | After any number of reads that did not end the stream, the chunks still to come are the re-chunking of the remaining reads from `BufferAfter`'s buffer, so `BufferBounded` speaks about the buffer the loop really carries. |
| Parallel.StreamWithFfmpeg | streaming_transcribe.py:77-139 | No audio-only format with a URL means no stream. Otherwise the read loop hands on exactly `Rechunk` of the reads. Its loop keeps the buffer under 960000 bytes at every read when the reads are at most 960000 bytes. |
| Optimized.TranscribedPieces | optimized_transcribe.py:72-83 | A piece is transcribed iff it was read before the end of the stream and holds more than 16000 samples. Transcribed and skipped pieces together are all the reads. |
| Optimized.TranscribePieces | optimized_transcribe.py:72-83 | The read loop transcribes exactly the long pieces, in read order. |
| Optimized.TranscribeUrlOptimized | optimized_transcribe.py:8-107 | With no audio-only format, the 400. For a server language with SenseVoice available, the space-joined texts of the long pieces with the duration (0 when the key is missing). Otherwise the chosen stream's URL and codec for the client. |
| Optimized.StreamTranscribeSocket | optimized_transcribe.py:127-179 | With no audio-only URL, one error event. Otherwise one event per read over 16000 samples, numbered 0, 1, 2, … without gaps and stamped `10 * n` s, then a completion event carrying their count. |

## Left out

- Network, subprocess and file-system I/O are not modelled. This covers video extraction, ffmpeg, temporary files, directory walks, disk probes and `os.path.exists`. Their outcomes are parameters: the format list, the reads of the decoder pipe, the downloads tree, the disk probe, file existence and the file length.
- The speech models are oracle functions. This covers Whisper's `detect_language` and `transcribe`, SenseVoice's model loader, `generate` and `rich_transcription_postprocess`, and the SenseVoice transcription called by the optimized endpoint.
- The floating-point signal work is not computed. The int16-to-float conversion, the mean-energy test and librosa's RMS are not modelled; each frame's silence is an input.
- Concurrency is not modelled. This covers the cleanup daemon thread, the per-download threads, the socket thread and asyncio's `gather`. Each operation is modelled as running alone.
- `get_system_stats` and `_background_cleanup` are not modelled: they report process statistics or loop forever on a timer.
- HTTP, SSE and socket framing is not modelled, nor logging. The model keeps the values of the answers. It drops the `model`, `title`, `processing_time`, `start_time`/`end_time` and `size` fields.
- Exceptions from I/O or the models are not modelled. In the source they turn into a 500 or a `Transcription error:` result.
- `transcribe_from_url_with_whisper` is not modelled. Its non-streaming download path is a library call followed by one oracle call; its streaming path is the twin modelled as `Whisper.TranscribeFromUrl`.
- `StreamingTranscriber.transcribe_from_url` and `_transcribe_chunk` are not modelled. The first awaits an async generator. The second's text is a float-formatted placeholder. The model hands on the re-chunked bytes instead.
- `ParallelTranscriber._download_audio` is not modelled. It returns the empty buffer it never writes to, so the model takes the decoded samples as input.
- sensevoice_transcription_old.py is not part of this model: it does not parse.
- SenseVoice.FindSpeechSegments: boundaries are exact multiples of 10 ms. The source's `int(t * 1000)` on float seconds can land one millisecond lower. The `> 5` and `>= 30` second tests of sensevoice_transcription.py:149-150 are decided exactly on the ticks, where float rounding in the source can flip them at the threshold itself.
- SenseVoice.BoundariesShape: tiling is proved only for one silence flag per 10 ms frame, the frame count of a centred analysis. Other counts are not covered.
- SpeechMerge.SplitLong: the source computes cut points as `start + int(i * (d / n))` in floating point. The model uses the exact `start + i * d / n`, which can differ by one millisecond.
- Parallel.SplitAudio: it requires a chunk of more than 2 s. With 2 s or less the source's loop steps by nothing or backwards and never ends.
- Optimized.TranscribePieces: reads are counted in samples. The model does not cover a read of an odd number of bytes, on which the source's decoding raises.
- Resources.CleanupUserFiles: the per-user file cap is a parameter, because the source never sets it. Directories are modelled as holding only regular files.
- Whisper.TranscribeFromUrl: the decoder's error output is not modelled. The corrected behaviour only logs it.
- A format without a `url` key is modelled as one with an empty URL. In the source, `fmt['url']` raises `KeyError`. At optimized_transcribe.py:134-135 the socket thread then dies without an event, where the model sends "No audio stream found". At optimized_transcribe.py:41 the request answers 500. At whisper_transcription.py:361 and 580 the Whisper paths report a failure.
- Optimized.TranscribeUrlOptimized: the reported duration is a whole number, and a `duration` key that holds None is read as 0. In the source, `info.get('duration', 0)` at optimized_transcribe.py:42 gives 0 only for a missing key, so a None value reaches the response as null (lines 92 and 103), and a float duration is passed on as a float.
- An `acodec` key that holds None is modelled as a missing key, whose text is "". In the source, `'opus' in None` raises `TypeError` at optimized_transcribe.py:32 and at whisper_transcription.py:348.
- Bitrates (`abr`), modification times (`st_mtime`) and the clock (`time.time()`) are whole numbers in the model. With the source's floats, two values can tie or differ where the model's do not. That can reorder equal keys in the stable sorts and flip the `> 3600` and `< cutoff` tests by less than a second.
- Resources.ResourceManager.CleanupMemory: the tables it prunes are given to it. app.py defines only `download_progress`, so the import at resource_manager.py:219 fails and the handler at 231-232 swallows the error; as shipped, `cleanup_memory` never runs. The failed import is not modelled.

## Findings

| source | as written | input that shows it | evidently intended | confidence | as-written member | corrected member |
|---|---|---|---|---|---|---|
| resource_manager.py:116-136 | `self.max_user_files` is never assigned in `__init__`. The cap test raises `AttributeError`, and the handler at 135-136 swallows it. The cap and the empty-directory removal (127-130) never run. | A user directory holding one file two days old: it is emptied but never removed. | Cap the remaining files, oldest popped first, and remove the directory once empty. | not executed | Resources.CleanupUserFilesAsWritten, Resources.AsWrittenKeepsEmptyDirectory, Resources.CleanupAllUsersAsWritten | Resources.CleanupUserFiles, Resources.CleanupAllUsers |
| whisper_transcription.py:704-726 | The decoder is started with its error output discarded, so `process.stderr` is None. On a non-zero exit status the check calls `.read()` on it, and the exception handler answers a failure. | Any stream with a chosen format after which ffmpeg exits with status 1: the transcript collected so far is lost. | Log the decoder's error output if there is any, and return the transcript. The streaming generator at 498-512 does this without a check. | not executed | Whisper.UrlAnswerAsWritten, Whisper.NonZeroExitLosesTranscript | Whisper.UrlAnswer |
