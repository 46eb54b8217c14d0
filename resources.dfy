/** The resource manager (resource_manager.py): the per-user admission
    ledger, the disk-budget check, and the janitor's selection of files to
    delete and of in-memory records to evict.

    The downloads tree is a value: a map from user id to the regular files of
    that user's directory (a user without a key has no directory).  The clock
    is the parameter `now`, in seconds. */
module Resources {
  import opened Common
  import opened Sorting
  import Progress

  const MaxConcurrentDownloads := 3
  const MaxFileAgeHours := 24
  const MaxDiskUsageGb := 5
  const GiB := 1024 * 1024 * 1024
  /** Progress records older than this many seconds are evicted. */
  const OldThreshold := 3600

  // ---------------------------------------------------------------------
  // Admission ledger: `user_concurrent_downloads`
  // ---------------------------------------------------------------------

  /** `user_concurrent_downloads.get(user, 0)`. */
  function Count(m: map<string, int>, user: string): int {
    if user in m then m[user] else 0
  }

  /** The ledger never stores a zero or negative count. */
  ghost predicate Positive(m: map<string, int>) {
    forall u :: u in m ==> m[u] > 0
  }

  /** `start_download`: the user's count (created at 0) goes up by exactly one;
      no other user's entry changes. */
  function Begin(m: map<string, int>, user: string): (r: map<string, int>)
    ensures user in r && Count(r, user) == Count(m, user) + 1
    ensures forall u :: u != user ==> (u in r <==> u in m)
    ensures forall u :: u != user && u in r ==> r[u] == m[u]
    ensures Positive(m) ==> Positive(r)
  {
    var m0 := if user !in m then m[user := 0] else m;
    m0[user := m0[user] + 1]
  }

  /** `finish_download`: nothing for an unknown user; otherwise the count
      drops by one, floored at zero, and a zero entry is deleted.  No other
      user's entry changes. */
  function End(m: map<string, int>, user: string): (r: map<string, int>)
    ensures user !in m ==> r == m
    ensures user in m ==> Count(r, user) == (if m[user] - 1 > 0 then m[user] - 1 else 0)
    ensures user in r ==> r[user] > 0
    ensures forall u :: u != user ==> (u in r <==> u in m)
    ensures forall u :: u != user && u in r ==> r[u] == m[u]
    ensures Positive(m) ==> Positive(r)
  {
    if user in m then
      var c := if m[user] - 1 > 0 then m[user] - 1 else 0;
      if c == 0 then m - {user} else m[user := c]
    else m
  }

  /** A finish undoes a start. */
  lemma EndUndoesBegin(m: map<string, int>, user: string)
    requires user in m ==> m[user] > 0
    ensures End(Begin(m, user), user) == m
  {
    var r := End(Begin(m, user), user);
    assert forall u :: u in r <==> u in m;
    assert forall u :: u in r ==> r[u] == m[u];
  }

  /** What the request handlers do with the ledger. */
  datatype LedgerOp = Request(user: string) | Release(user: string)

  /** A sequence of handler actions in which every start is preceded by an
      admission check: a refused request changes nothing. */
  function RunGated(m: map<string, int>, ops: seq<LedgerOp>): map<string, int>
    decreases |ops|
  {
    if ops == [] then m
    else
      var m1 := match ops[0]
        case Request(u) => if Count(m, u) < MaxConcurrentDownloads then Begin(m, u) else m
        case Release(u) => End(m, u);
      RunGated(m1, ops[1..])
  }

  ghost predicate Bounded(m: map<string, int>) {
    forall u :: u in m ==> 0 < m[u] <= MaxConcurrentDownloads
  }

  /** If every start follows a granted admission check, no user's count ever
      exceeds the limit and none goes to zero or below, whatever the order of
      starts and finishes. */
  lemma {:induction false} GatedRunBounded(m: map<string, int>, ops: seq<LedgerOp>)
    requires Bounded(m)
    ensures Bounded(RunGated(m, ops))
    decreases |ops|
  {
    if ops != [] {
      var m1 := match ops[0]
        case Request(u) => if Count(m, u) < MaxConcurrentDownloads then Begin(m, u) else m
        case Release(u) => End(m, u);
      assert Bounded(m1);
      GatedRunBounded(m1, ops[1..]);
    }
  }

  // ---------------------------------------------------------------------
  // Disk budget: the comparisons of `check_disk_space`
  // ---------------------------------------------------------------------

  /** What the disk probe saw: the summed size of the downloads tree and the
      free space of its volume, in bytes, or a failure (an exception). */
  datatype DiskProbe = ProbeFailed | Probe(totalBytes: nat, freeBytes: nat)

  /** `check_disk_space`: at most 5 GiB used and at least 1 GiB free; a
      failed probe refuses. */
  function DiskSpaceOk(p: DiskProbe): (ok: bool)
    ensures ok <==> p.Probe? && (p.totalBytes as real) / (GiB as real) <= MaxDiskUsageGb as real
                            && (p.freeBytes as real) / (GiB as real) >= 1.0
  {
    match p
    case ProbeFailed => false
    case Probe(total, free) => total <= MaxDiskUsageGb * GiB && free >= GiB
  }

  // ---------------------------------------------------------------------
  // File reclamation: `cleanup_user_files`
  // ---------------------------------------------------------------------

  /** A regular file in a user's directory. */
  datatype FileEntry = FileEntry(name: string, mtime: int, size: nat)

  function MTime(f: FileEntry): int {
    f.mtime
  }

  /** `now - max_file_age_hours * 3600`. */
  function Cutoff(now: int): int {
    now - MaxFileAgeHours * 3600
  }

  /** The test of line 106: older than the cutoff. */
  function IsExpired(now: int): FileEntry -> bool {
    (f: FileEntry) => f.mtime < Cutoff(now)
  }

  /** The test of line 116: not older than the cutoff. */
  function IsRecent(now: int): FileEntry -> bool {
    (f: FileEntry) => f.mtime >= Cutoff(now)
  }

  /** The directory listing sorted oldest first (a stable sort). */
  function OldestFirst(files: seq<FileEntry>): (r: seq<FileEntry>)
    ensures SortedBy(r, MTime) && multiset(r) == multiset(files)
  {
    SortBy(files, MTime)
  }

  /** The files past the age limit, oldest first. */
  function Expired(files: seq<FileEntry>, now: int): (r: seq<FileEntry>)
    ensures SortedBy(r, MTime)
    ensures forall k :: 0 <= k < |r| ==> r[k].mtime < Cutoff(now)
  {
    FilterSorted(OldestFirst(files), IsExpired(now), MTime);
    Filter(OldestFirst(files), IsExpired(now))
  }

  /** The files within the age limit, oldest first (`remaining_files`). */
  function Recent(files: seq<FileEntry>, now: int): (r: seq<FileEntry>)
    ensures SortedBy(r, MTime)
    ensures forall k :: 0 <= k < |r| ==> r[k].mtime >= Cutoff(now)
  {
    FilterSorted(OldestFirst(files), IsRecent(now), MTime);
    Filter(OldestFirst(files), IsRecent(now))
  }

  /** Expired and recent files together are exactly the directory. */
  lemma ExpiredRecentPartition(files: seq<FileEntry>, now: int)
    ensures multiset(Expired(files, now)) + multiset(Recent(files, now)) == multiset(files)
  {
    FilterPartition(OldestFirst(files), IsExpired(now), IsRecent(now));
  }

  /** The tree after `cleanup_user_files` AS WRITTEN: the expired files are
      deleted, then reading `self.max_user_files` (never assigned) raises,
      the handler swallows it, and the directory is kept even when empty. */
  function CleanupAsWritten(tree: map<string, seq<FileEntry>>, user: string, now: int): map<string, seq<FileEntry>>
  {
    if user !in tree then tree else tree[user := Recent(tree[user], now)]
  }

  /** The directory as intended after cleanup: None when it was removed. */
  function SweptDir(files: seq<FileEntry>, now: int, maxUserFiles: nat): Option<seq<FileEntry>>
  {
    var recent := Recent(files, now);
    var kept := if |recent| > maxUserFiles then recent[|recent| - maxUserFiles..] else recent;
    if kept == [] then None else Some(kept)
  }

  /** The tree after `cleanup_user_files` as intended: expired files deleted,
      then the oldest remaining ones until at most `maxUserFiles` are left,
      then the directory removed if it is empty. */
  function Cleanup(tree: map<string, seq<FileEntry>>, user: string, now: int, maxUserFiles: nat): (r: map<string, seq<FileEntry>>)
    ensures forall u :: u != user ==> (u in r <==> u in tree)
    ensures forall u :: u != user && u in r ==> r[u] == tree[u]
    ensures user in r ==> user in tree && 0 < |r[user]| <= maxUserFiles
    ensures user in r ==> forall k :: 0 <= k < |r[user]| ==> r[user][k].mtime >= Cutoff(now)
    ensures user in tree ==> (user in r <==> SweptDir(tree[user], now, maxUserFiles).Some?)
    ensures user in r ==> r[user] == SweptDir(tree[user], now, maxUserFiles).value
  {
    if user !in tree then tree
    else match SweptDir(tree[user], now, maxUserFiles)
      case None => tree - {user}
      case Some(kept) => tree[user := kept]
  }

  /** The sorting-and-deleting part shared by both versions: which files are
      deleted for being too old, in the order they are deleted. */
  method DeleteExpired(files: seq<FileEntry>, now: int) returns (sorted: seq<FileEntry>, removed: seq<FileEntry>)
    ensures sorted == OldestFirst(files)
    ensures removed == Expired(files, now)
  {
    var cutoff := Cutoff(now);
    sorted := SortBy(files, MTime);
    removed := [];
    var i := 0;
    while i < |sorted|
      invariant 0 <= i <= |sorted|
      invariant removed == Filter(sorted[..i], IsExpired(now))
    {
      assert sorted[..i + 1][..i] == sorted[..i];
      if sorted[i].mtime < cutoff {
        removed := removed + [sorted[i]];
      }
      i := i + 1;
    }
    assert sorted[..|sorted|] == sorted;
  }

  /** `cleanup_user_files` as written. */
  method CleanupUserFilesAsWritten(tree: map<string, seq<FileEntry>>, user: string, now: int)
    returns (newTree: map<string, seq<FileEntry>>, removed: seq<FileEntry>)
    ensures newTree == CleanupAsWritten(tree, user, now)
    ensures user !in tree ==> removed == []
    ensures user in tree ==> removed == Expired(tree[user], now)
  {
    if user !in tree {
      return tree, [];
    }
    var sorted;
    sorted, removed := DeleteExpired(tree[user], now);
    var remaining := Filter(sorted, IsRecent(now));
    // `len(remaining_files) > self.max_user_files` raises here: the
    // attribute does not exist, and the handler ends the call.
    newTree := tree[user := remaining];
  }

  /** The popping loop of `cleanup_user_files`: the oldest files go first
      until at most `maxUserFiles` are left. */
  method PopOldest(remaining: seq<FileEntry>, maxUserFiles: nat) returns (dropped: seq<FileEntry>, kept: seq<FileEntry>)
    ensures dropped + kept == remaining
    ensures kept == if |remaining| > maxUserFiles then remaining[|remaining| - maxUserFiles..] else remaining
  {
    dropped, kept := [], remaining;
    while |kept| > maxUserFiles
      invariant dropped + kept == remaining
      invariant |remaining| <= maxUserFiles ==> dropped == []
      invariant |kept| >= maxUserFiles || dropped == []
      decreases |kept|
    {
      dropped, kept := dropped + [kept[0]], kept[1..];
    }
    assert kept == remaining[|dropped|..];
  }

  /** `cleanup_user_files` as intended, with the cap on files per user. */
  method CleanupUserFiles(tree: map<string, seq<FileEntry>>, user: string, now: int, maxUserFiles: nat)
    returns (newTree: map<string, seq<FileEntry>>, removed: seq<FileEntry>)
    ensures newTree == Cleanup(tree, user, now, maxUserFiles)
    ensures user !in tree ==> removed == []
    ensures user in tree ==> multiset(removed) + (if user in newTree then multiset(newTree[user]) else multiset{})
                             == multiset(tree[user])
    ensures SortedBy(removed, MTime)
  {
    if user !in tree {
      return tree, [];
    }
    var sorted, expired := DeleteExpired(tree[user], now);
    var dropped, kept := PopOldest(Filter(sorted, IsRecent(now)), maxUserFiles);
    removed := expired + dropped;
    SweepSplit(tree[user], now, maxUserFiles, dropped, kept);
    if kept == [] {
      newTree := tree - {user};
    } else {
      newTree := tree[user := kept];
    }
  }

  /** Splitting the recent files into the popped ones and the kept ones: what
      is kept is the intended sweep's directory, nothing is lost, and the
      deletions run oldest first. */
  lemma SweepSplit(files: seq<FileEntry>, now: int, maxUserFiles: nat, dropped: seq<FileEntry>, kept: seq<FileEntry>)
    requires dropped + kept == Recent(files, now)
    requires kept == if |Recent(files, now)| > maxUserFiles then Recent(files, now)[|Recent(files, now)| - maxUserFiles..] else Recent(files, now)
    ensures SweptDir(files, now, maxUserFiles) == (if kept == [] then None else Some(kept))
    ensures multiset(Expired(files, now) + dropped) + multiset(kept) == multiset(files)
    ensures SortedBy(Expired(files, now) + dropped, MTime)
  {
    var recent := Recent(files, now);
    assert multiset(recent) == multiset(dropped) + multiset(kept);
    ExpiredRecentPartition(files, now);
    assert dropped == recent[..|dropped|];
    ExpiredBeforeRecent(files, now, |dropped|);
  }

  /** Deleting the expired files and then the oldest recent ones is deleting
      oldest first. */
  lemma ExpiredBeforeRecent(files: seq<FileEntry>, now: int, n: nat)
    requires n <= |Recent(files, now)|
    ensures SortedBy(Expired(files, now) + Recent(files, now)[..n], MTime)
  {
    var e := Expired(files, now);
    var r := Recent(files, now)[..n];
    var s := e + r;
    forall i, j | 0 <= i < j < |s| ensures MTime(s[i]) <= MTime(s[j]) {
      if j < |e| {
      } else if i >= |e| {
        assert s[i] == r[i - |e|] && s[j] == r[j - |e|];
      } else {
        assert s[i].mtime < Cutoff(now);
        assert s[j] == r[j - |e|];
      }
    }
  }

  /** The defect: a directory whose files have all expired is emptied but not
      removed by the code as written, while the intended cleanup removes it. */
  lemma AsWrittenKeepsEmptyDirectory()
    ensures CleanupAsWritten(map["u" := [FileEntry("old.mp4", 0, 10)]], "u", 100000) == map["u" := []]
    ensures Cleanup(map["u" := [FileEntry("old.mp4", 0, 10)]], "u", 100000, 10) == map[]
  {
    OneExpiredFile();
    var tree := map["u" := [FileEntry("old.mp4", 0, 10)]];
    assert tree - {"u"} == map[];
  }

  /** A single file a day and more old has nothing recent in it. */
  lemma OneExpiredFile()
    ensures Recent([FileEntry("old.mp4", 0, 10)], 100000) == []
  {
    var files := [FileEntry("old.mp4", 0, 10)];
    assert SortBy(files[..0], MTime) == [];
    assert OldestFirst(files) == files;
    assert Filter(files[..0], IsRecent(100000)) == [];
  }

  /** `m.get(k)`. */
  function Lookup<K, V>(m: map<K, V>, k: K): Option<V> {
    if k in m then Some(m[k]) else None
  }

  predicate Distinct<T(==)>(s: seq<T>) {
    forall i, j :: 0 <= i < j < |s| ==> s[i] != s[j]
  }

  /** The tree after cleaning the users of `users`, one after the other. */
  function CleanupEach(tree: map<string, seq<FileEntry>>, users: seq<string>, now: int, maxUserFiles: nat): map<string, seq<FileEntry>>
    decreases |users|
  {
    if users == [] then tree
    else Cleanup(CleanupEach(tree, users[..|users| - 1], now, maxUserFiles), users[|users| - 1], now, maxUserFiles)
  }

  /** Cleaning users one after the other is cleaning each independently: a
      listed user's directory is its own sweep, whatever the order, and an
      unlisted one is untouched. */
  lemma {:induction false} CleanupEachIndependent(tree: map<string, seq<FileEntry>>, users: seq<string>, now: int, maxUserFiles: nat, u: string)
    requires Distinct(users)
    ensures Lookup(CleanupEach(tree, users, now, maxUserFiles), u)
            == if u in users && u in tree then SweptDir(tree[u], now, maxUserFiles) else Lookup(tree, u)
    decreases |users|
  {
    if users != [] {
      var init := users[..|users| - 1];
      var last := users[|users| - 1];
      assert Distinct(init);
      CleanupEachIndependent(tree, init, now, maxUserFiles, u);
      if u == last {
        assert u !in init;
        CleanupEachIndependent(tree, init, now, maxUserFiles, last);
      } else {
        assert u in users <==> u in init;
      }
    }
  }

  /** `cleanup_all_users`: every user directory of the tree is cleaned. */
  method CleanupAllUsers(tree: map<string, seq<FileEntry>>, now: int, maxUserFiles: nat)
    returns (newTree: map<string, seq<FileEntry>>)
    ensures forall u :: Lookup(newTree, u) == if u in tree then SweptDir(tree[u], now, maxUserFiles) else None
  {
    newTree := tree;
    var pending := tree.Keys;
    ghost var done: seq<string> := [];
    while pending != {}
      invariant pending <= tree.Keys
      invariant Distinct(done)
      invariant forall u :: u in done <==> u in tree && u !in pending
      invariant newTree == CleanupEach(tree, done, now, maxUserFiles)
      decreases pending
    {
      var u :| u in pending;
      var removed;
      newTree, removed := CleanupUserFiles(newTree, u, now, maxUserFiles);
      assert (done + [u])[..|done|] == done;
      done := done + [u];
      pending := pending - {u};
    }
    forall u ensures Lookup(newTree, u) == if u in tree then SweptDir(tree[u], now, maxUserFiles) else None {
      CleanupEachIndependent(tree, done, now, maxUserFiles, u);
    }
  }

  /** `cleanup_all_users` AS WRITTEN, each user swept by
      `CleanupUserFilesAsWritten`: the expired files go, and every directory
      stays, even one that is left empty. */
  method CleanupAllUsersAsWritten(tree: map<string, seq<FileEntry>>, now: int)
    returns (newTree: map<string, seq<FileEntry>>)
    ensures newTree.Keys == tree.Keys
    ensures forall u :: u in tree ==> newTree[u] == Recent(tree[u], now)
  {
    newTree := tree;
    var pending := tree.Keys;
    while pending != {}
      invariant pending <= tree.Keys
      invariant newTree.Keys == tree.Keys
      invariant forall u :: u in tree ==> newTree[u] == if u in pending then tree[u] else Recent(tree[u], now)
      decreases pending
    {
      var u :| u in pending;
      var removed;
      newTree, removed := CleanupUserFilesAsWritten(newTree, u, now);
      pending := pending - {u};
    }
  }

  // ---------------------------------------------------------------------
  // Memory reclamation: `cleanup_memory`
  // ---------------------------------------------------------------------

  /** The job ids whose last update is more than an hour old. */
  function StaleIds(timestamps: map<string, int>, now: int): set<string> {
    set id | id in timestamps && now - timestamps[id] > OldThreshold
  }

  /** The users whose directory is missing or empty. */
  function EmptyUsers(userDownloads: map<string, seq<string>>, tree: map<string, seq<FileEntry>>): set<string> {
    set u | u in userDownloads && (u !in tree || tree[u] == [])
  }

  class ResourceManager {
    /** `user_concurrent_downloads`. */
    var counts: map<string, int>

    ghost predicate Valid()
      reads this
    {
      Positive(counts)
    }

    constructor ()
      ensures Valid() && counts == map[]
    {
      counts := map[];
    }

    /** `can_start_download`: true iff the user has fewer than three
        downloads running (an unknown user has none). */
    method CanStartDownload(user: string) returns (ok: bool)
      ensures ok <==> Count(counts, user) < MaxConcurrentDownloads
      ensures !ok ==> user in counts
    {
      var current := if user in counts then counts[user] else 0;
      ok := current < MaxConcurrentDownloads;
    }

    /** `start_download`. */
    method StartDownload(user: string)
      requires Valid()
      modifies this
      ensures Valid()
      ensures counts == Begin(old(counts), user)
    {
      if user !in counts {
        counts := counts[user := 0];
      }
      counts := counts[user := counts[user] + 1];
    }

    /** `finish_download`. */
    method FinishDownload(user: string)
      requires Valid()
      modifies this
      ensures Valid()
      ensures counts == End(old(counts), user)
    {
      if user in counts {
        var c := counts[user] - 1;
        counts := counts[user := if c > 0 then c else 0];
        if counts[user] == 0 {
          counts := counts - {user};
        }
      }
    }

    /** `cleanup_memory`: drop every job whose timestamp is more than an hour
        old from both the progress table and the timestamp table, whatever
        its status (a job with no timestamp is never dropped), and drop the
        download list of every user whose directory is missing or empty. */
    method CleanupMemory(store: Progress.ProgressStore, tree: map<string, seq<FileEntry>>, now: int)
      requires store.Valid()
      modifies store
      ensures store.Valid()
      ensures store.progress == old(store.progress) - StaleIds(old(store.timestamps), now)
      ensures store.timestamps == old(store.timestamps) - StaleIds(old(store.timestamps), now)
      ensures store.userDownloads == old(store.userDownloads) - EmptyUsers(old(store.userDownloads), tree)
    {
      // Collect the stale ids.
      ghost var ts := store.timestamps;
      var oldIds: set<string> := {};
      var pending := store.timestamps.Keys;
      while pending != {}
        invariant pending <= ts.Keys && store.timestamps == ts
        invariant forall id :: id in oldIds <==> id in ts && id !in pending && now - ts[id] > OldThreshold
        decreases pending
      {
        var id :| id in pending;
        if now - store.timestamps[id] > OldThreshold {
          oldIds := oldIds + {id};
        }
        pending := pending - {id};
      }
      assert oldIds == StaleIds(ts, now);

      // Pop them from both tables.
      var rest := oldIds;
      while rest != {}
        invariant rest <= oldIds
        invariant store.Valid()
        invariant store.progress == old(store.progress) - (oldIds - rest)
        invariant store.timestamps == ts - (oldIds - rest)
        invariant store.userDownloads == old(store.userDownloads)
        decreases rest
      {
        var id :| id in rest;
        store.progress := store.progress - {id};
        store.timestamps := store.timestamps - {id};
        rest := rest - {id};
      }
      assert oldIds - {} == oldIds;

      // Users without files.
      ghost var ud := store.userDownloads;
      var emptyUsers: set<string> := {};
      var users := store.userDownloads.Keys;
      while users != {}
        invariant users <= ud.Keys && store.userDownloads == ud
        invariant forall u :: u in emptyUsers <==> u in ud && u !in users && (u !in tree || tree[u] == [])
        decreases users
      {
        var u :| u in users;
        if u !in tree || tree[u] == [] {
          emptyUsers := emptyUsers + {u};
        }
        users := users - {u};
      }
      assert emptyUsers == EmptyUsers(ud, tree);
      store.userDownloads := store.userDownloads - emptyUsers;
    }
  }
}
