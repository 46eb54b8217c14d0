/** The web front end's job bookkeeping (app.py): the `download_progress`
    table written by the downloader's progress hook and read by pollers, the
    `/download` request check, and the `/downloads` listing. */
module Progress {
  import opened Common
  import opened Text
  import opened Sorting

  /** One job's entry in the progress table, or the answer for an unknown id. */
  datatype Status =
    | Downloading(percent: string, speed: string)
    | Finished(filename: string)
    | Failed(error: string)
    | NotFound

  /** The dictionary the downloader hands to a progress hook: its `status`,
      the optional `_percent_str` and `_speed_str`, and `filename`. */
  datatype HookEvent = HookEvent(status: string, percent: Option<string>, speed: Option<string>, filename: string)

  /** `d.get(key, 'N/A')`. */
  function OrNA(v: Option<string>): string {
    match v
    case Some(s) => s
    case None => "N/A"
  }

  /** The table after one hook call for job `id`: a `downloading` event
      replaces the entry with its percent and speed (each "N/A" when absent), a
      `finished` event replaces it with the file name, any other event
      changes nothing.  Every other job's entry is left as it was. */
  function HookUpdate(progress: map<string, Status>, id: string, d: HookEvent): (r: map<string, Status>)
    ensures d.status == "downloading" ==> id in r && r[id] == Downloading(OrNA(d.percent), OrNA(d.speed))
    ensures d.status == "finished" ==> id in r && r[id] == Finished(d.filename)
    ensures d.status != "downloading" && d.status != "finished" ==> r == progress
    ensures forall k :: k != id ==> (k in r <==> k in progress)
    ensures forall k :: k != id && k in r ==> r[k] == progress[k]
  {
    if d.status == "downloading" then progress[id := Downloading(OrNA(d.percent), OrNA(d.speed))]
    else if d.status == "finished" then progress[id := Finished(d.filename)]
    else progress
  }

  /** The table after a whole download job: each hook event in order, then the
      error entry if the download raised. */
  function AfterDownload(progress: map<string, Status>, id: string, events: seq<HookEvent>, failure: Option<string>): (r: map<string, Status>)
    ensures failure.Some? ==> id in r && r[id] == Failed(failure.value)
    ensures forall k :: k != id ==> (k in r <==> k in progress)
    ensures forall k :: k != id && k in r ==> r[k] == progress[k]
    decreases |events|
  {
    if events == [] then
      (if failure.Some? then progress[id := Failed(failure.value)] else progress)
    else
      AfterDownload(HookUpdate(progress, id, events[0]), id, events[1..], failure)
  }

  /** A job's events from position i on: the hook call for event i, then the
      rest. */
  lemma AfterDownloadStep(progress: map<string, Status>, id: string, events: seq<HookEvent>, i: nat, failure: Option<string>)
    requires i < |events|
    ensures AfterDownload(progress, id, events[i..], failure)
            == AfterDownload(HookUpdate(progress, id, events[i]), id, events[i + 1..], failure)
  {
    assert events[i..][1..] == events[i + 1..];
  }

  /** The progress table `download_progress` (app.py:12), shared by the
      request handlers and the download workers.  The store also holds the
      two tables that `cleanup_memory` (resource_manager.py:147-173) is
      written to prune, `progress_timestamps` (job id to last update time, in
      seconds) and `user_downloads` (user id to that user's downloads).
      app.py defines neither of them, so the janitor's import of them at
      resource_manager.py:219 fails and the exception handler at 231-232
      swallows it; the store models the tables `cleanup_memory` expects. */
  class ProgressStore {
    var progress: map<string, Status>
    var timestamps: map<string, int>
    var userDownloads: map<string, seq<string>>

    /** The `not_found` answer is never stored: it only stands for an absent id. */
    ghost predicate Valid()
      reads this
    {
      forall k :: k in progress ==> progress[k] != NotFound
    }

    constructor ()
      ensures Valid()
      ensures progress == map[] && timestamps == map[] && userDownloads == map[]
    {
      progress := map[];
      timestamps := map[];
      userDownloads := map[];
    }

    /** `ProgressHook(id)(d)`. */
    method Hook(id: string, d: HookEvent)
      requires Valid()
      modifies this
      ensures Valid()
      ensures progress == HookUpdate(old(progress), id, d)
      ensures timestamps == old(timestamps) && userDownloads == old(userDownloads)
    {
      if d.status == "downloading" {
        progress := progress[id := Downloading(OrNA(d.percent), OrNA(d.speed))];
      } else if d.status == "finished" {
        progress := progress[id := Finished(d.filename)];
      }
    }

    /** `download_video`: the downloader reports `events` to the hook and
        then either returns or raises with message `failure`, which overwrites
        the job's entry with an error. */
    method RunDownload(id: string, events: seq<HookEvent>, failure: Option<string>)
      requires Valid()
      modifies this
      ensures Valid()
      ensures progress == AfterDownload(old(progress), id, events, failure)
      ensures timestamps == old(timestamps) && userDownloads == old(userDownloads)
    {
      var i := 0;
      while i < |events|
        invariant 0 <= i <= |events|
        invariant Valid()
        invariant AfterDownload(progress, id, events[i..], failure) == AfterDownload(old(progress), id, events, failure)
        invariant timestamps == old(timestamps) && userDownloads == old(userDownloads)
      {
        AfterDownloadStep(progress, id, events, i, failure);
        Hook(id, events[i]);
        i := i + 1;
      }
      if failure.Some? {
        progress := progress[id := Failed(failure.value)];
      }
    }

    /** `get_progress`: the stored entry, or `not_found` for an id never
        written; reading changes nothing. */
    method GetProgress(id: string) returns (s: Status)
      requires Valid()
      ensures s == NotFound <==> id !in progress
      ensures id in progress ==> s == progress[id]
    {
      if id in progress {
        s := progress[id];
      } else {
        s := NotFound;
      }
    }
  }

  /** The answer to a `/download` request. */
  datatype DownloadResponse = BadRequest(message: string) | Started(downloadId: string)

  /** `/download`: a request without a (non-empty) url is refused with 400
      before any id is made; otherwise the job id is the current time in
      milliseconds, written in decimal. */
  function HandleDownloadRequest(url: Option<string>, nowMs: nat): (r: DownloadResponse)
    ensures r.BadRequest? <==> (url == None || url == Some(""))
    ensures r.Started? ==> IsDigits(r.downloadId) && DecimalValue(r.downloadId) == nowMs
  {
    if url == None || url == Some("") then BadRequest("URL is required")
    else
      DecimalRoundTrip(nowMs);
      Started(NatToDecimal(nowMs))
  }

  /** One entry of the downloads directory. */
  datatype DirEntry = DirEntry(name: string, isFile: bool, size: nat, mtime: int)

  /** One row of the `/downloads` answer. */
  datatype FileInfo = FileInfo(name: string, size: nat, modified: int)

  function Info(e: DirEntry): FileInfo {
    FileInfo(e.name, e.size, e.mtime)
  }

  /** The rows for the regular files among `entries`, in directory order. */
  function RegularFiles(entries: seq<DirEntry>): (r: seq<FileInfo>)
    ensures |r| <= |entries|
    ensures forall k :: 0 <= k < |entries| && entries[k].isFile ==> Info(entries[k]) in r
    ensures forall k :: 0 <= k < |r| ==> exists j :: 0 <= j < |entries| && entries[j].isFile && r[k] == Info(entries[j])
    decreases |entries|
  {
    if entries == [] then []
    else RegularFiles(entries[..|entries| - 1])
         + (var e := entries[|entries| - 1]; if e.isFile then [Info(e)] else [])
  }

  /** Newest first is ascending order of the negated modification time. */
  function NewestFirst(f: FileInfo): int {
    -f.modified
  }

  /** `list_downloads`: the regular files of the directory (nothing when it
      does not exist), newest modification time first. */
  method ListDownloads(dirExists: bool, entries: seq<DirEntry>) returns (files: seq<FileInfo>)
    ensures !dirExists ==> files == []
    ensures dirExists ==> multiset(files) == multiset(RegularFiles(entries))
    ensures forall i, j :: 0 <= i < j < |files| ==> files[i].modified >= files[j].modified
  {
    if !dirExists {
      return [];
    }
    var found: seq<FileInfo> := [];
    var i := 0;
    while i < |entries|
      invariant 0 <= i <= |entries|
      invariant found == RegularFiles(entries[..i])
    {
      assert entries[..i + 1][..i] == entries[..i];
      if entries[i].isFile {
        found := found + [Info(entries[i])];
      }
      i := i + 1;
    }
    assert entries[..|entries|] == entries;
    files := SortBy(found, NewestFirst);
    assert SortedBy(files, NewestFirst);
  }
}
