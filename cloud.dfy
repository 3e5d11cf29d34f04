/** cloud.py: the resumable upload (`upload_data`) and the download of one
    job's folders (`download_from_cloud`). */
module Cloud {
  import opened Text
  import opened PosixPath
  import opened Naming
  import opened Rows
  import opened ObjectStore
  import opened Migration

  // ---------------------------------------------------------------------------
  // Upload

  /** The pairs derived for a job from its enabled scan areas. */
  function JobPathPairs(src: Source, job: JobRecord): seq<(string, string)> {
    PathPairs(EnabledScanAreas(src.scanAreas, job.id), job.id, job.name)
  }

  /** The loop over a job's (local, cloud) path pairs: a pair whose local path
      is missing is skipped; otherwise the folder is uploaded and the pair
      stored in PathStorage. `found` is the `files_exist` flag. */
  function CopyScanAreas(s: State, found: bool, fs: Local, jobId: int, pairs: seq<(string, string)>): (State, bool)
    decreases |pairs|
  {
    if pairs == [] then (s, found)
    else
      var (localPath, cloudPath) := pairs[0];
      if !Exists(fs, localPath) then CopyScanAreas(s, found, fs, jobId, pairs[1..])
      else
        var s' := s.(bucket := CopyFolder(s.bucket, fs, localPath, cloudPath),
                     paths := s.paths + [PathRecord(jobId, localPath, cloudPath)]);
        CopyScanAreas(s', true, fs, jobId, pairs[1..])
  }

  /** One iteration of the job loop of `upload_data`. A job at or below the
      cursor read at the start is skipped; a job with no local folder is
      skipped after its paths are derived; otherwise its folders are uploaded,
      the cursor file is overwritten with its id, and only then are its rows
      inserted. `failed`: an error other than an integrity error escaped the
      inserts and ends the run. */
  function UploadJob(s: State, fs: Local, src: Source, faults: Faults, last: int, job: JobRecord): Outcome<State> {
    if job.id <= last then Outcome(s, false)
    else
      var (s1, found) := CopyScanAreas(s, false, fs, job.id, JobPathPairs(src, job));
      if !found then Outcome(s1, false)
      else
        var inserted := InsertJobRows(s1.tables, src, job, faults);
        Outcome(s1.(cursor := Some(job.id), tables := inserted.value), inserted.failed)
  }

  /** The job loop of `upload_data` over the jobs in query order. */
  function UploadJobs(s: State, fs: Local, src: Source, faults: Faults, last: int, jobs: seq<JobRecord>): Outcome<State>
    decreases |jobs|
  {
    if jobs == [] then Outcome(s, false)
    else
      var o := UploadJob(s, fs, src, faults, last, jobs[0]);
      if o.failed then o else UploadJobs(o.value, fs, src, faults, last, jobs[1..])
  }

  /** `upload_data`. */
  method UploadData(st: Stores, src: Source, faults: Faults) returns (aborted: bool)
    modifies st
    ensures var o := UploadJobs(old(st.Snapshot()), old(st.Disk()), src, faults, CursorValue(old(st.cursorFile)), src.jobs);
      st.Snapshot() == o.value && aborted == o.failed
    ensures st.Disk() == old(st.Disk())
  {
    var last := st.ReadCursor();
    ghost var fs := st.Disk();
    ghost var goal := UploadJobs(st.Snapshot(), fs, src, faults, last, src.jobs);
    aborted := false;
    var i := 0;
    while i < |src.jobs|
      invariant 0 <= i <= |src.jobs|
      invariant st.Disk() == fs
      invariant UploadJobs(st.Snapshot(), fs, src, faults, last, src.jobs[i..]) == goal
    {
      var job := src.jobs[i];
      assert src.jobs[i..][1..] == src.jobs[i + 1..];
      if job.id <= last {
        i := i + 1;
        continue;
      }
      var failed := UploadOneJob(st, src, faults, last, job);
      if failed {
        aborted := true;
        return;
      }
      i := i + 1;
    }
  }

  /** The body of the job loop for a job above the cursor. */
  method UploadOneJob(st: Stores, src: Source, faults: Faults, last: int, job: JobRecord) returns (failed: bool)
    requires job.id > last
    modifies st
    ensures var o := UploadJob(old(st.Snapshot()), old(st.Disk()), src, faults, last, job);
      st.Snapshot() == o.value && failed == o.failed
    ensures st.Disk() == old(st.Disk())
  {
    var localPaths, cloudPaths := GeneratePaths(src.scanAreas, job.id, job.name);
    var filesExist := UploadAreas(st, job.id, localPaths, cloudPaths, JobPathPairs(src, job));
    if !filesExist {
      return false;
    }
    st.WriteCursor(job.id);
    failed := st.InsertJob(src, job, faults);
  }

  /** The loop over the zipped path lists of one job: a missing local path
      is skipped, an existing one copied. */
  method UploadAreas(st: Stores, jobId: int, localPaths: seq<string>, cloudPaths: seq<string>, ghost pairs: seq<(string, string)>)
    returns (filesExist: bool)
    requires |pairs| == |localPaths| == |cloudPaths|
    requires forall k :: 0 <= k < |pairs| ==> pairs[k] == (localPaths[k], cloudPaths[k])
    modifies st
    ensures (st.Snapshot(), filesExist) == CopyScanAreas(old(st.Snapshot()), false, old(st.Disk()), jobId, pairs)
    ensures st.Disk() == old(st.Disk())
  {
    ghost var fs := st.Disk();
    ghost var before := st.Snapshot();
    filesExist := false;
    for k := 0 to |localPaths|
      invariant st.Disk() == fs
      invariant CopyScanAreas(st.Snapshot(), filesExist, fs, jobId, pairs[k..]) == CopyScanAreas(before, false, fs, jobId, pairs)
    {
      assert pairs[k..][1..] == pairs[k + 1..];
      assert pairs[k] == (localPaths[k], cloudPaths[k]);
      if !Exists(st.Disk(), localPaths[k]) {
        continue;
      }
      st.CopyToCloud(localPaths[k], cloudPaths[k]);
      st.StorePaths(jobId, localPaths[k], cloudPaths[k]);
      filesExist := true;
    }
    assert pairs[|localPaths|..] == [];
  }



  // ---------------------------------------------------------------------------
  // Download

  /** `SELECT cloud_path, local_path FROM PathStorage WHERE job_id = %s`. */
  function JobPaths(paths: seq<PathRecord>, jobId: int): (selected: seq<PathRecord>)
    ensures forall r :: r in selected <==> r in paths && r.jobId == jobId
  {
    if paths == [] then []
    else
      var rest := JobPaths(paths[1..], jobId);
      if paths[0].jobId == jobId then [paths[0]] + rest else rest
  }

  /** The blobs below a stored cloud path (backslashes turned into '/'), each
      at its path relative to that folder below the stored local root. */
  function RestoreMap(bucket: map<string, Bytes>, record: PathRecord): map<string, Bytes> {
    Place(record.localPath, Walk(bucket, Replace(record.cloudPath, '\\', '/')))
  }

  /** The local files after downloading the folders of `records` in order; a
      later download overwrites a file an earlier one wrote. */
  function Restore(files: map<string, Bytes>, bucket: map<string, Bytes>, records: seq<PathRecord>): map<string, Bytes>
    decreases |records|
  {
    if records == [] then files
    else Restore(files + RestoreMap(bucket, records[0]), bucket, records[1..])
  }

  /** The loop over the blobs of one folder: each is downloaded to its local
      path, overwriting any file there. */
  method DownloadBlobs(files: map<string, Bytes>, tree: map<string, Bytes>, localRoot: string)
    returns (downloaded: map<string, Bytes>)
    ensures downloaded == files + Place(localRoot, tree)
  {
    downloaded := files;
    var pending := tree.Keys;
    while pending != {}
      invariant pending <= tree.Keys
      invariant downloaded == files + Place(localRoot, WalkedPart(tree, pending))
      decreases pending
    {
      var rel :| rel in pending;
      DownloadStep(files, localRoot, tree, pending, rel);
      downloaded := downloaded[Join(localRoot, rel) := tree[rel]];
      pending := pending - {rel};
    }
    WalkedAll(tree);
  }

  lemma DownloadStep(files: map<string, Bytes>, root: string, tree: map<string, Bytes>, pending: set<string>, rel: string)
    requires rel in pending && pending <= tree.Keys
    ensures (files + Place(root, WalkedPart(tree, pending)))[Join(root, rel) := tree[rel]]
         == files + Place(root, WalkedPart(tree, pending - {rel}))
  {
    PlaceOneMore(root, tree, pending, rel);
    OverwriteOneMore(files, Place(root, WalkedPart(tree, pending)), Join(root, rel), tree[rel]);
  }

  lemma OverwriteOneMore(files: map<string, Bytes>, placed: map<string, Bytes>, k: string, data: Bytes)
    ensures (files + placed)[k := data] == files + placed[k := data]
  {
  }

  /** `download_from_cloud` for one job id. */
  method DownloadFromCloud(st: Stores, jobId: int)
    modifies st
    ensures st.files == Restore(old(st.files), st.bucket, JobPaths(old(st.pathStorage), jobId))
    ensures st.Snapshot() == old(st.Snapshot()) && st.dirs == old(st.dirs)
  {
    var records := JobPaths(st.pathStorage, jobId);
    ghost var goal := Restore(st.files, st.bucket, records);
    for i := 0 to |records|
      invariant Restore(st.files, st.bucket, records[i..]) == goal
      invariant st.Snapshot() == old(st.Snapshot()) && st.dirs == old(st.dirs)
    {
      assert records[i..][1..] == records[i + 1..];
      var cloudPath := Replace(records[i].cloudPath, '\\', '/');
      var blobs := Walk(st.bucket, cloudPath);
      st.files := DownloadBlobs(st.files, blobs, records[i].localPath);
    }
  }

  // ---------------------------------------------------------------------------
  // What a run does

  /** Some enabled scan area of the job has its local folder on disk. */
  predicate HasFiles(fs: Local, src: Source, job: JobRecord) {
    exists p :: p in JobPathPairs(src, job) && Exists(fs, p.0)
  }

  /** Nothing already stored is lost or changed: blobs and rows stay, and
      PathStorage is only appended to. */
  predicate Grows(a: State, b: State) {
    && (forall k :: k in a.bucket ==> k in b.bucket && b.bucket[k] == a.bucket[k])
    && KeepsAll(a.tables, b.tables)
    && |a.paths| <= |b.paths| && b.paths[..|a.paths|] == a.paths
  }

  lemma GrowsTransitive(a: State, b: State, c: State)
    requires Grows(a, b) && Grows(b, c)
    ensures Grows(a, c)
  {
    KeepsAllTransitive(a.tables, b.tables, c.tables);
    assert c.paths[..|a.paths|] == c.paths[..|b.paths|][..|a.paths|];
  }

  /** A PathStorage row the upload loop wrote for one of the pairs: the job
      id and the pair, whose local folder exists. */
  predicate RecordFor(r: PathRecord, fs: Local, jobId: int, pairs: seq<(string, string)>) {
    r.jobId == jobId && (r.localPath, r.cloudPath) in pairs && Exists(fs, r.localPath)
  }

  /** Every file below the record's local folder has a blob under its cloud
      folder. */
  predicate Uploaded(bucket: map<string, Bytes>, fs: Local, r: PathRecord) {
    forall rel :: rel in Walk(fs.files, r.localPath) ==> Join(r.cloudPath, rel) in bucket
  }

  /** Uploading one folder and recording it. */
  lemma CopyOneArea(s: State, fs: Local, jobId: int, localPath: string, cloudPath: string)
    ensures var s' := s.(bucket := CopyFolder(s.bucket, fs, localPath, cloudPath),
                         paths := s.paths + [PathRecord(jobId, localPath, cloudPath)]);
      && Grows(s, s')
      && Uploaded(s'.bucket, fs, PathRecord(jobId, localPath, cloudPath))
  {
    UploadKeepsAndAdds(s.bucket, cloudPath, Walk(fs.files, localPath));
    var s' := s.(bucket := CopyFolder(s.bucket, fs, localPath, cloudPath),
                 paths := s.paths + [PathRecord(jobId, localPath, cloudPath)]);
    assert s'.paths[..|s.paths|] == s.paths;
  }

  /** The scan-area loop touches only the bucket and PathStorage, never
      losing what they held, and sets the flag exactly when some local folder
      exists; without one it changes nothing. */
  lemma {:induction false} CopyScanAreasGrows(s: State, found: bool, fs: Local, jobId: int, pairs: seq<(string, string)>)
    decreases |pairs|
    ensures var (s', found') := CopyScanAreas(s, found, fs, jobId, pairs);
      && Grows(s, s') && s'.cursor == s.cursor && s'.tables == s.tables
      && (found' <==> found || exists p :: p in pairs && Exists(fs, p.0))
      && (!found' ==> s' == s)
  {
    if pairs != [] {
      var (localPath, cloudPath) := pairs[0];
      var rest := pairs[1..];
      assert forall x :: x in rest ==> x in pairs;
      assert forall x :: x in pairs ==> x == pairs[0] || x in rest;
      if !Exists(fs, localPath) {
        CopyScanAreasGrows(s, found, fs, jobId, rest);
      } else {
        var s1 := s.(bucket := CopyFolder(s.bucket, fs, localPath, cloudPath),
                     paths := s.paths + [PathRecord(jobId, localPath, cloudPath)]);
        CopyOneArea(s, fs, jobId, localPath, cloudPath);
        CopyScanAreasGrows(s1, true, fs, jobId, rest);
        GrowsTransitive(s, s1, CopyScanAreas(s1, true, fs, jobId, rest).0);
      }
    }
  }

  /** The PathStorage rows the scan-area loop writes: one per pair whose local
      folder exists, in order. */
  function ScanRecords(fs: Local, jobId: int, pairs: seq<(string, string)>): seq<PathRecord>
    decreases |pairs|
  {
    if pairs == [] then []
    else if !Exists(fs, pairs[0].0) then ScanRecords(fs, jobId, pairs[1..])
    else [PathRecord(jobId, pairs[0].0, pairs[0].1)] + ScanRecords(fs, jobId, pairs[1..])
  }

  /** The scan-area loop appends exactly `ScanRecords` to PathStorage. */
  lemma {:induction false} CopyScanAreasPaths(s: State, found: bool, fs: Local, jobId: int, pairs: seq<(string, string)>)
    decreases |pairs|
    ensures CopyScanAreas(s, found, fs, jobId, pairs).0.paths == s.paths + ScanRecords(fs, jobId, pairs)
  {
    if pairs != [] {
      if !Exists(fs, pairs[0].0) {
        CopyScanAreasPaths(s, found, fs, jobId, pairs[1..]);
      } else {
        var s1 := s.(bucket := CopyFolder(s.bucket, fs, pairs[0].0, pairs[0].1),
                     paths := s.paths + [PathRecord(jobId, pairs[0].0, pairs[0].1)]);
        CopyScanAreasPaths(s1, true, fs, jobId, pairs[1..]);
        PathsStep(s, s1, found, fs, jobId, pairs);
      }
    }
  }

  /** One step of `CopyScanAreasPaths` through a pair whose folder exists. */
  lemma PathsStep(s: State, s1: State, found: bool, fs: Local, jobId: int, pairs: seq<(string, string)>)
    requires pairs != [] && Exists(fs, pairs[0].0)
    requires s1 == s.(bucket := CopyFolder(s.bucket, fs, pairs[0].0, pairs[0].1),
                      paths := s.paths + [PathRecord(jobId, pairs[0].0, pairs[0].1)])
    requires CopyScanAreas(s1, true, fs, jobId, pairs[1..]).0.paths == s1.paths + ScanRecords(fs, jobId, pairs[1..])
    ensures CopyScanAreas(s, found, fs, jobId, pairs).0.paths == s.paths + ScanRecords(fs, jobId, pairs)
  {
    CopyScanAreasUnfold(s, found, fs, jobId, pairs);
    ScanRecordsUnfold(s.paths, fs, jobId, pairs);
  }

  lemma ScanRecordsUnfold(before: seq<PathRecord>, fs: Local, jobId: int, pairs: seq<(string, string)>)
    requires pairs != [] && Exists(fs, pairs[0].0)
    ensures before + [PathRecord(jobId, pairs[0].0, pairs[0].1)] + ScanRecords(fs, jobId, pairs[1..])
         == before + ScanRecords(fs, jobId, pairs)
  {
    var r := PathRecord(jobId, pairs[0].0, pairs[0].1);
    assert ScanRecords(fs, jobId, pairs) == [r] + ScanRecords(fs, jobId, pairs[1..]);
  }

  /** The scan-area loop through a pair whose folder exists. */
  lemma CopyScanAreasUnfold(s: State, found: bool, fs: Local, jobId: int, pairs: seq<(string, string)>)
    requires pairs != [] && Exists(fs, pairs[0].0)
    ensures CopyScanAreas(s, found, fs, jobId, pairs)
         == CopyScanAreas(s.(bucket := CopyFolder(s.bucket, fs, pairs[0].0, pairs[0].1),
                             paths := s.paths + [PathRecord(jobId, pairs[0].0, pairs[0].1)]), true, fs, jobId, pairs[1..])
  {
  }

  /** The PathStorage rows from index `from` on are each one of the pairs
      with an existing local folder. */
  predicate RecordedFrom(paths: seq<PathRecord>, from: nat, fs: Local, jobId: int, pairs: seq<(string, string)>) {
    forall i :: from <= i < |paths| ==> RecordFor(paths[i], fs, jobId, pairs)
  }

  /** Every row `ScanRecords` lists is one of the pairs with an existing local
      folder. */
  lemma {:induction false} ScanRecordsFor(fs: Local, jobId: int, pairs: seq<(string, string)>)
    decreases |pairs|
    ensures RecordedFrom(ScanRecords(fs, jobId, pairs), 0, fs, jobId, pairs)
  {
    if pairs != [] {
      var rest := pairs[1..];
      ScanRecordsFor(fs, jobId, rest);
      var recs := ScanRecords(fs, jobId, rest);
      if !Exists(fs, pairs[0].0) {
        RecordedFromWiden(recs, 0, fs, jobId, pairs);
      } else {
        var all := ScanRecords(fs, jobId, pairs);
        RecordedFromWiden(recs, 0, fs, jobId, pairs);
        forall i | 0 <= i < |all| ensures RecordFor(all[i], fs, jobId, pairs) {
          if i > 0 {
            assert all[i] == recs[i - 1];
          }
        }
      }
    }
  }

  /** Every PathStorage row the scan-area loop writes is one of the pairs with
      an existing local folder. */
  lemma CopyScanAreasRecords(s: State, found: bool, fs: Local, jobId: int, pairs: seq<(string, string)>)
    ensures RecordedFrom(CopyScanAreas(s, found, fs, jobId, pairs).0.paths, |s.paths|, fs, jobId, pairs)
  {
    CopyScanAreasPaths(s, found, fs, jobId, pairs);
    ScanRecordsFor(fs, jobId, pairs);
    var paths := CopyScanAreas(s, found, fs, jobId, pairs).0.paths;
    var recs := ScanRecords(fs, jobId, pairs);
    forall i | |s.paths| <= i < |paths| ensures RecordFor(paths[i], fs, jobId, pairs) {
      assert paths[i] == recs[i - |s.paths|];
    }
  }

  /** Rows recorded for the pairs after the first are recorded for all of them. */
  lemma RecordedFromWiden(paths: seq<PathRecord>, from: nat, fs: Local, jobId: int, pairs: seq<(string, string)>)
    requires |pairs| > 0
    requires RecordedFrom(paths, from, fs, jobId, pairs[1..])
    ensures RecordedFrom(paths, from, fs, jobId, pairs)
  {
    forall i | from <= i < |paths| ensures RecordFor(paths[i], fs, jobId, pairs) {
      assert RecordFor(paths[i], fs, jobId, pairs[1..]);
      var p := (paths[i].localPath, paths[i].cloudPath);
      var k :| 0 <= k < |pairs[1..]| && pairs[1..][k] == p;
      assert pairs[k + 1] == p;
    }
  }

  /** Every one of the pairs whose local folder exists has all its files
      uploaded. */
  predicate AllUploaded(bucket: map<string, Bytes>, fs: Local, jobId: int, pairs: seq<(string, string)>) {
    forall p :: p in pairs && Exists(fs, p.0) ==> Uploaded(bucket, fs, PathRecord(jobId, p.0, p.1))
  }

  /** After the scan-area loop, every folder of the pairs that exists locally
      has all its files in the bucket. */
  lemma {:induction false} CopyScanAreasUploads(s: State, found: bool, fs: Local, jobId: int, pairs: seq<(string, string)>)
    decreases |pairs|
    ensures AllUploaded(CopyScanAreas(s, found, fs, jobId, pairs).0.bucket, fs, jobId, pairs)
  {
    if pairs != [] {
      var (localPath, cloudPath) := pairs[0];
      var rest := pairs[1..];
      if !Exists(fs, localPath) {
        CopyScanAreasUploads(s, found, fs, jobId, rest);
        AllUploadedWiden(CopyScanAreas(s, found, fs, jobId, rest).0.bucket, fs, jobId, pairs);
      } else {
        var s1 := s.(bucket := CopyFolder(s.bucket, fs, localPath, cloudPath),
                     paths := s.paths + [PathRecord(jobId, localPath, cloudPath)]);
        CopyOneArea(s, fs, jobId, localPath, cloudPath);
        CopyScanAreasUploads(s1, true, fs, jobId, rest);
        CopyScanAreasGrows(s1, true, fs, jobId, rest);
        var bucket := CopyScanAreas(s1, true, fs, jobId, rest).0.bucket;
        UploadedGrows(s1.bucket, bucket, fs, PathRecord(jobId, localPath, cloudPath));
        AllUploadedWiden(bucket, fs, jobId, pairs);
      }
    }
  }

  lemma AllUploadedWiden(bucket: map<string, Bytes>, fs: Local, jobId: int, pairs: seq<(string, string)>)
    requires |pairs| > 0
    requires AllUploaded(bucket, fs, jobId, pairs[1..])
    requires Exists(fs, pairs[0].0) ==> Uploaded(bucket, fs, PathRecord(jobId, pairs[0].0, pairs[0].1))
    ensures AllUploaded(bucket, fs, jobId, pairs)
  {
    forall p | p in pairs && Exists(fs, p.0) ensures Uploaded(bucket, fs, PathRecord(jobId, p.0, p.1)) {
      if p != pairs[0] {
        var k :| 0 <= k < |pairs| && pairs[k] == p;
        assert pairs[1..][k - 1] == p;
      }
    }
  }

  /** A folder stays uploaded while the bucket only grows. */
  lemma UploadedGrows(a: map<string, Bytes>, b: map<string, Bytes>, fs: Local, r: PathRecord)
    requires Uploaded(a, fs, r) && forall k :: k in a ==> k in b
    ensures Uploaded(b, fs, r)
  {
  }

  /** A job at or below the cursor, or one none of whose derived local
      folders exists, leaves every store as it was: no upload, no PathStorage
      row, no cursor write, no insert. */
  lemma UploadJobSkipped(s: State, fs: Local, src: Source, faults: Faults, last: int, job: JobRecord)
    requires job.id <= last || !HasFiles(fs, src, job)
    ensures UploadJob(s, fs, src, faults, last, job) == Outcome(s, false)
  {
    CopyScanAreasGrows(s, false, fs, job.id, JobPathPairs(src, job));
  }

  /** A job above the cursor with a local folder has its id written to the
      cursor file whether or not its row inserts then fail: the cursor is
      written before the inserts. Its rows are those of the Job insert
      block. */
  lemma UploadJobWritesCursorFirst(s: State, fs: Local, src: Source, faults: Faults, last: int, job: JobRecord)
    requires job.id > last && HasFiles(fs, src, job)
    ensures var o := UploadJob(s, fs, src, faults, last, job);
      && o.value.cursor == Some(job.id)
      && o.failed == InsertJobRows(s.tables, src, job, faults).failed
      && o.value.tables == InsertJobRows(s.tables, src, job, faults).value
  {
    CopyScanAreasGrows(s, false, fs, job.id, JobPathPairs(src, job));
  }

  /** The jobs of a run above the cursor, in query order. */
  function Pending(jobs: seq<JobRecord>, last: int): (pending: seq<JobRecord>)
    ensures forall j :: j in pending <==> j in jobs && j.id > last
  {
    if jobs == [] then []
    else
      var rest := Pending(jobs[1..], last);
      if jobs[0].id > last then [jobs[0]] + rest else rest
  }

  /** A run does the same as a run over only the jobs above the cursor. */
  lemma {:induction false} UploadJobsSkipsSettled(s: State, fs: Local, src: Source, faults: Faults, last: int, jobs: seq<JobRecord>)
    decreases |jobs|
    ensures UploadJobs(s, fs, src, faults, last, jobs) == UploadJobs(s, fs, src, faults, last, Pending(jobs, last))
  {
    if jobs != [] {
      if jobs[0].id <= last {
        UploadJobSkipped(s, fs, src, faults, last, jobs[0]);
        UploadJobsSkipsSettled(s, fs, src, faults, last, jobs[1..]);
      } else {
        var o := UploadJob(s, fs, src, faults, last, jobs[0]);
        if !o.failed {
          UploadJobsSkipsSettled(o.value, fs, src, faults, last, jobs[1..]);
        }
      }
    }
  }

  /** One job's effect: stores only grow, and every PathStorage row written
      is for the job, above the cursor, one of its derived pairs, with an
      existing and uploaded local folder. */
  lemma UploadJobEffect(s: State, fs: Local, src: Source, faults: Faults, last: int, job: JobRecord)
    ensures var o := UploadJob(s, fs, src, faults, last, job);
      && Grows(s, o.value)
      && (forall i :: |s.paths| <= i < |o.value.paths| ==>
            && job.id > last
            && RecordFor(o.value.paths[i], fs, job.id, JobPathPairs(src, job))
            && Uploaded(o.value.bucket, fs, o.value.paths[i]))
  {
    if job.id > last {
      var pairs := JobPathPairs(src, job);
      CopyScanAreasGrows(s, false, fs, job.id, pairs);
      CopyScanAreasRecords(s, false, fs, job.id, pairs);
      CopyScanAreasUploads(s, false, fs, job.id, pairs);
      var (s1, found) := CopyScanAreas(s, false, fs, job.id, pairs);
      forall i | |s.paths| <= i < |s1.paths|
        ensures RecordFor(s1.paths[i], fs, job.id, pairs) && Uploaded(s1.bucket, fs, s1.paths[i])
      {
        var r := s1.paths[i];
        assert RecordFor(r, fs, job.id, pairs);
        assert r == PathRecord(job.id, r.localPath, r.cloudPath);
      }
      if found {
        InsertJobRowsKeeps(s1.tables, src, job, faults);
        var o := UploadJob(s, fs, src, faults, last, job);
        assert Grows(s1, o.value);
        GrowsTransitive(s, s1, o.value);
      }
    }
  }

  /** A PathStorage row written by a run: for a job of the run above the
      cursor, one of the job's derived pairs, with an existing local folder
      whose files all have blobs. */
  predicate RunRecord(r: PathRecord, bucket: map<string, Bytes>, fs: Local, src: Source, last: int, jobs: seq<JobRecord>) {
    && r.jobId > last
    && Uploaded(bucket, fs, r)
    && exists j :: j in jobs && RecordFor(r, fs, j.id, JobPathPairs(src, j))
  }

  /** A run never overwrites a blob or a row and only appends to
      PathStorage; every row it appends is a `RunRecord`. */
  lemma {:induction false} UploadJobsEffect(s: State, fs: Local, src: Source, faults: Faults, last: int, jobs: seq<JobRecord>)
    decreases |jobs|
    ensures var o := UploadJobs(s, fs, src, faults, last, jobs);
      && Grows(s, o.value)
      && forall i :: |s.paths| <= i < |o.value.paths| ==> RunRecord(o.value.paths[i], o.value.bucket, fs, src, last, jobs)
  {
    if jobs != [] {
      var j := jobs[0];
      var o1 := UploadJob(s, fs, src, faults, last, j);
      UploadJobEffect(s, fs, src, faults, last, j);
      var o := UploadJobs(s, fs, src, faults, last, jobs);
      if o1.failed {
        forall i | |s.paths| <= i < |o.value.paths|
          ensures RunRecord(o.value.paths[i], o.value.bucket, fs, src, last, jobs)
        {
          assert RecordFor(o.value.paths[i], fs, j.id, JobPathPairs(src, j));
        }
      } else {
        var rest := jobs[1..];
        UploadJobsEffect(o1.value, fs, src, faults, last, rest);
        GrowsTransitive(s, o1.value, o.value);
        forall i | |s.paths| <= i < |o.value.paths|
          ensures RunRecord(o.value.paths[i], o.value.bucket, fs, src, last, jobs)
        {
          if i < |o1.value.paths| {
            assert o.value.paths[i] == o1.value.paths[i] by {
              assert o.value.paths[..|o1.value.paths|] == o1.value.paths;
            }
            var r := o.value.paths[i];
            assert RecordFor(r, fs, j.id, JobPathPairs(src, j));
            assert Uploaded(o.value.bucket, fs, r);
          } else {
            var r := o.value.paths[i];
            assert RunRecord(r, o.value.bucket, fs, src, last, rest);
            var j' :| j' in rest && RecordFor(r, fs, j'.id, JobPathPairs(src, j'));
            assert j' in jobs;
          }
        }
      }
    }
  }

  /** The id of the last job in query order above the cursor with a local
      folder. */
  function LastWithFiles(fs: Local, src: Source, last: int, jobs: seq<JobRecord>): (r: Option<int>)
    decreases |jobs|
    ensures r.Some? ==> exists i :: LastAt(fs, src, last, jobs, i) && jobs[i].id == r.value
    ensures r.None? <==> forall j :: j in jobs && j.id > last ==> !HasFiles(fs, src, j)
  {
    if jobs == [] then None
    else
      var rest := LastWithFiles(fs, src, last, jobs[1..]);
      if rest.Some? then
        var i :| LastAt(fs, src, last, jobs[1..], i) && jobs[1..][i].id == rest.value;
        assert LastAt(fs, src, last, jobs, i + 1);
        rest
      else if jobs[0].id > last && HasFiles(fs, src, jobs[0]) then
        assert LastAt(fs, src, last, jobs, 0);
        Some(jobs[0].id)
      else None
  }

  /** `jobs[i]` is above the cursor and has a local folder, and no job after
      it in query order does. */
  predicate LastAt(fs: Local, src: Source, last: int, jobs: seq<JobRecord>, i: int) {
    && 0 <= i < |jobs| && jobs[i].id > last && HasFiles(fs, src, jobs[i])
    && forall j :: i < j < |jobs| && jobs[j].id > last ==> !HasFiles(fs, src, jobs[j])
  }

  /** After a run that was not aborted, the cursor file holds the id of the
      last job in query order that had a local folder (not the largest id),
      or is as before when no job had one. After an aborted run it holds the
      id of a job of the run above the cursor. */
  lemma {:induction false} UploadJobsCursor(s: State, fs: Local, src: Source, faults: Faults, last: int, jobs: seq<JobRecord>)
    decreases |jobs|
    ensures var o := UploadJobs(s, fs, src, faults, last, jobs);
      && (!o.failed ==> o.value.cursor == if LastWithFiles(fs, src, last, jobs).Some? then LastWithFiles(fs, src, last, jobs) else s.cursor)
      && (o.failed ==> exists j :: j in jobs && j.id > last && o.value.cursor == Some(j.id))
  {
    if jobs != [] {
      var j := jobs[0];
      var o1 := UploadJob(s, fs, src, faults, last, j);
      if j.id > last && HasFiles(fs, src, j) {
        UploadJobWritesCursorFirst(s, fs, src, faults, last, j);
      } else {
        UploadJobSkipped(s, fs, src, faults, last, j);
      }
      if !o1.failed {
        UploadJobsCursor(o1.value, fs, src, faults, last, jobs[1..]);
        var o := UploadJobs(o1.value, fs, src, faults, last, jobs[1..]);
        if o.failed {
          var j' :| j' in jobs[1..] && j'.id > last && o.value.cursor == Some(j'.id);
          assert j' in jobs;
        }
      }
    }
  }

  // ---------------------------------------------------------------------------
  // Download

  /** `files` with each map of `layers` written over it in order. */
  function Overlay(files: map<string, Bytes>, layers: seq<map<string, Bytes>>): map<string, Bytes>
    decreases |layers|
  {
    if layers == [] then files else Overlay(files + layers[0], layers[1..])
  }

  /** The maps the downloads of `records` write, in order. */
  function Layers(bucket: map<string, Bytes>, records: seq<PathRecord>): (layers: seq<map<string, Bytes>>)
    ensures |layers| == |records|
    ensures forall j :: 0 <= j < |records| ==> layers[j] == RestoreMap(bucket, records[j])
  {
    seq(|records|, j requires 0 <= j < |records| => RestoreMap(bucket, records[j]))
  }

  /** Downloading folder after folder is overlaying what each one writes. */
  lemma {:induction false} RestoreIsOverlay(files: map<string, Bytes>, bucket: map<string, Bytes>, records: seq<PathRecord>)
    decreases |records|
    ensures Restore(files, bucket, records) == Overlay(files, Layers(bucket, records))
  {
    if records != [] {
      var layers := Layers(bucket, records);
      RestoreIsOverlay(files + RestoreMap(bucket, records[0]), bucket, records[1..]);
      assert layers[1..] == Layers(bucket, records[1..]);
    }
  }

  /** An entry of `files` survives the overlay, with its bytes when no layer
      holds its key. */
  lemma {:induction false} OverlayKeeps(files: map<string, Bytes>, layers: seq<map<string, Bytes>>, k: string)
    decreases |layers|
    requires k in files
    ensures k in Overlay(files, layers)
    ensures (forall j :: 0 <= j < |layers| ==> k !in layers[j]) ==> Overlay(files, layers)[k] == files[k]
  {
    if layers != [] {
      OverlayKeeps(files + layers[0], layers[1..], k);
      if forall j :: 0 <= j < |layers| ==> k !in layers[j] {
        assert k !in layers[0];
        forall j | 0 <= j < |layers[1..]| ensures k !in layers[1..][j] {
          assert layers[1..][j] == layers[j + 1];
        }
      }
    }
  }

  /** An entry of layer `i` is in the overlay, with the bytes layer `i` gives
      it when no later layer holds its key. */
  lemma {:induction false} OverlayCovers(files: map<string, Bytes>, layers: seq<map<string, Bytes>>, i: int, k: string)
    decreases |layers|
    requires 0 <= i < |layers| && k in layers[i]
    ensures k in Overlay(files, layers)
    ensures (forall j :: i < j < |layers| ==> k !in layers[j]) ==> Overlay(files, layers)[k] == layers[i][k]
  {
    var next := files + layers[0];
    var rest := layers[1..];
    if i == 0 {
      OverlayKeeps(next, rest, k);
      if forall j :: 0 < j < |layers| ==> k !in layers[j] {
        forall j | 0 <= j < |rest| ensures k !in rest[j] {
          assert rest[j] == layers[j + 1];
        }
      }
    } else {
      assert rest[i - 1] == layers[i];
      OverlayCovers(next, rest, i - 1, k);
      if forall j :: i < j < |layers| ==> k !in layers[j] {
        forall j | i - 1 < j < |rest| ensures k !in rest[j] {
          assert rest[j] == layers[j + 1];
        }
      }
    }
  }

  /** A file on disk before the downloads is still there afterwards. */
  lemma RestoreKeeps(files: map<string, Bytes>, bucket: map<string, Bytes>, records: seq<PathRecord>, k: string)
    requires k in files
    ensures k in Restore(files, bucket, records)
  {
    RestoreIsOverlay(files, bucket, records);
    OverlayKeeps(files, Layers(bucket, records), k);
  }

  /** A file the download of folder `i` writes is on disk afterwards, with the
      bytes folder `i` gave it when no later folder writes the same path. */
  lemma RestoreCovers(files: map<string, Bytes>, bucket: map<string, Bytes>, records: seq<PathRecord>, i: int, k: string)
    requires 0 <= i < |records| && k in RestoreMap(bucket, records[i])
    ensures k in Restore(files, bucket, records)
    ensures (forall j :: i < j < |records| ==> k !in RestoreMap(bucket, records[j]))
              ==> Restore(files, bucket, records)[k] == RestoreMap(bucket, records[i])[k]
  {
    var layers := Layers(bucket, records);
    RestoreIsOverlay(files, bucket, records);
    OverlayCovers(files, layers, i, k);
  }

  /** What `download_from_cloud` brings back of an upload: for every folder
      recorded for the job whose files are all in the bucket, each of those
      files is on disk afterwards at its old path, holding the bytes of the
      blob stored for it unless a later record of the job writes the same
      path. */
  lemma DownloadRestoresUpload(files: map<string, Bytes>, bucket: map<string, Bytes>, fs: Local,
                               paths: seq<PathRecord>, jobId: int, i: int, rel: string)
    requires 0 <= i < |JobPaths(paths, jobId)|
    requires var r := JobPaths(paths, jobId)[i];
      && Uploaded(bucket, fs, r) && r.localPath != "" && r.cloudPath != "" && '\\' !in r.cloudPath
      && rel in Walk(fs.files, r.localPath)
    ensures var records := JobPaths(paths, jobId);
      var r := records[i];
      var after := Restore(files, bucket, records);
      && Join(r.localPath, rel) in after
      && ((forall j :: i < j < |records| ==> Join(r.localPath, rel) !in RestoreMap(bucket, records[j]))
            ==> after[Join(r.localPath, rel)] == bucket[Join(r.cloudPath, rel)])
  {
    var records := JobPaths(paths, jobId);
    var r := records[i];
    RestoreRecorded(bucket, fs, r, rel);
    RestoreCovers(files, bucket, records, i, Join(r.localPath, rel));
  }

  /** Downloading a folder the run recorded brings every file that was below
      its local folder back to the same path, with the bytes of the blob
      stored under the cloud folder. */
  lemma RestoreRecorded(bucket: map<string, Bytes>, fs: Local, r: PathRecord, rel: string)
    requires Uploaded(bucket, fs, r)
    requires r.localPath != "" && r.cloudPath != "" && '\\' !in r.cloudPath
    requires rel in Walk(fs.files, r.localPath)
    ensures Join(r.localPath, rel) in RestoreMap(bucket, r)
    ensures RestoreMap(bucket, r)[Join(r.localPath, rel)] == bucket[Join(r.cloudPath, rel)]
  {
    ReplaceAbsent(r.cloudPath, '\\', '/');
    assert Join(r.cloudPath, rel) == r.cloudPath + "/" + rel;
  }
}
