/** cloud_up.py: the earlier upload script. Its job loop reads the resume
    cursor but never writes it, and its `copy_to_cloud` stores a PathStorage
    row after every file it uploads rather than once per scan area. */
module CloudUp {
  import opened PosixPath
  import opened Naming
  import opened Rows
  import opened ObjectStore
  import opened Migration
  import opened Cloud

  // ---------------------------------------------------------------------------
  // copy_to_cloud with a PathStorage row per uploaded file

  /** `n` copies of one PathStorage row. */
  function Repeat(record: PathRecord, n: nat): (rows: seq<PathRecord>)
    ensures |rows| == n && forall r :: r in rows ==> r == record
  {
    if n == 0 then [] else Repeat(record, n - 1) + [record]
  }

  lemma RepeatOneMore(record: PathRecord, n: nat)
    ensures Repeat(record, n) + [record] == Repeat(record, n + 1)
  {
  }

  /** The rows `copy_to_cloud` stores for one folder: the (job, local folder,
      cloud folder) row once for every file whose blob did not exist. */
  function UploadRecords(bucket: map<string, Bytes>, fs: Local, jobId: int, localPath: string, cloudPath: string): seq<PathRecord> {
    Repeat(PathRecord(jobId, localPath, cloudPath), |Fresh(bucket, cloudPath, Walk(fs.files, localPath))|)
  }

  /** The loop of `copy_to_cloud` with `store_paths` bound to the job being
      uploaded: a file whose blob is missing is uploaded and `record` stored;
      a file whose blob exists is skipped and nothing stored. */
  method UploadFilesRecording(bucket: map<string, Bytes>, tree: map<string, Bytes>, cloudPath: string, record: PathRecord)
    returns (uploaded: map<string, Bytes>, recorded: seq<PathRecord>)
    ensures uploaded == Upload(bucket, cloudPath, tree)
    ensures recorded == Repeat(record, |Fresh(bucket, cloudPath, tree)|)
  {
    uploaded, recorded := bucket, [];
    var pending := tree.Keys;
    RecordingStart(bucket, cloudPath, tree, record);
    while pending != {}
      invariant RecordedSoFar(bucket, cloudPath, tree, record, pending, uploaded, recorded)
      decreases pending
    {
      var rel :| rel in pending;
      var blob := Join(cloudPath, rel);
      RecordingStep(bucket, cloudPath, tree, record, pending, uploaded, recorded, rel);
      if blob !in uploaded {
        uploaded := uploaded[blob := tree[rel]];
        recorded := recorded + [record];
      }
      pending := pending - {rel};
    }
    RecordingEnd(bucket, cloudPath, tree, record, uploaded, recorded);
  }

  /** The state of the recording loop once the files outside `pending` are
      visited: those files are uploaded where fresh, and one row is stored
      per fresh file among them. */
  predicate RecordedSoFar(bucket: map<string, Bytes>, cloud: string, tree: map<string, Bytes>, record: PathRecord,
                          pending: set<string>, uploaded: map<string, Bytes>, recorded: seq<PathRecord>) {
    && pending <= tree.Keys
    && uploaded == Place(cloud, WalkedPart(tree, pending)) + bucket
    && recorded == Repeat(record, |Fresh(bucket, cloud, tree) - pending|)
  }

  lemma RecordingStart(bucket: map<string, Bytes>, cloud: string, tree: map<string, Bytes>, record: PathRecord)
    ensures RecordedSoFar(bucket, cloud, tree, record, tree.Keys, bucket, [])
  {
    assert Fresh(bucket, cloud, tree) - tree.Keys == {};
    assert WalkedPart(tree, tree.Keys) == map[];
  }

  /** One iteration of the recording loop keeps its invariant. */
  lemma RecordingStep(bucket: map<string, Bytes>, cloud: string, tree: map<string, Bytes>, record: PathRecord,
                      pending: set<string>, uploaded: map<string, Bytes>, recorded: seq<PathRecord>, rel: string)
    requires RecordedSoFar(bucket, cloud, tree, record, pending, uploaded, recorded) && rel in pending
    ensures var blob := Join(cloud, rel);
      RecordedSoFar(bucket, cloud, tree, record, pending - {rel},
        if blob in uploaded then uploaded else uploaded[blob := tree[rel]],
        if blob in uploaded then recorded else recorded + [record])
  {
    UploadStep(bucket, cloud, tree, pending, rel);
    FreshStep(bucket, cloud, tree, pending, rel);
    RepeatOneMore(record, |Fresh(bucket, cloud, tree) - pending|);
  }

  lemma RecordingEnd(bucket: map<string, Bytes>, cloud: string, tree: map<string, Bytes>, record: PathRecord,
                     uploaded: map<string, Bytes>, recorded: seq<PathRecord>)
    requires RecordedSoFar(bucket, cloud, tree, record, {}, uploaded, recorded)
    ensures uploaded == Upload(bucket, cloud, tree)
    ensures recorded == Repeat(record, |Fresh(bucket, cloud, tree)|)
  {
    WalkedAll(tree);
    assert Fresh(bucket, cloud, tree) - {} == Fresh(bucket, cloud, tree);
  }

  /** Visiting one more file adds it to the fresh files visited exactly when
      its blob is missing from the bucket the copy started from, which is
      also when it is missing from the bucket so far. */
  lemma FreshStep(bucket: map<string, Bytes>, cloud: string, tree: map<string, Bytes>, pending: set<string>, rel: string)
    requires rel in pending && pending <= tree.Keys
    ensures var blob := Join(cloud, rel);
      && (blob in Place(cloud, WalkedPart(tree, pending)) + bucket <==> blob in bucket)
      && |Fresh(bucket, cloud, tree) - (pending - {rel})|
         == |Fresh(bucket, cloud, tree) - pending| + if blob in bucket then 0 else 1
  {
    PlaceOneMore(cloud, tree, pending, rel);
    var all := Fresh(bucket, cloud, tree);
    assert rel in all <==> Join(cloud, rel) !in bucket;
    CountStep(all, pending, rel);
  }

  /** Taking one element out of `pending` adds it to what is left of `all`
      when it belongs to `all`. */
  lemma CountStep(all: set<string>, pending: set<string>, rel: string)
    requires rel in pending
    ensures |all - (pending - {rel})| == |all - pending| + if rel in all then 1 else 0
  {
    if rel in all {
      assert all - (pending - {rel}) == (all - pending) + {rel};
    } else {
      assert all - (pending - {rel}) == all - pending;
    }
  }

  /** A copy of a folder whose files all have blobs uploads and stores
      nothing. */
  lemma UploadNothingFresh(bucket: map<string, Bytes>, cloud: string, tree: map<string, Bytes>)
    requires Fresh(bucket, cloud, tree) == {}
    ensures Upload(bucket, cloud, tree) == bucket
  {
    forall rel | rel in tree ensures Join(cloud, rel) in bucket {
      assert rel !in Fresh(bucket, cloud, tree);
    }
  }

  // ---------------------------------------------------------------------------
  // copy_to_cloud as written

  /** What `copy_to_cloud` does as written: `store_paths(mysql_cursor, job_id,
      ...)` names two variables bound in no scope the function sees, so the
      first fresh upload is followed by a NameError that ends the run. The
      files are visited in an order left open, so the blob uploaded is that of
      some fresh file; with no fresh file the copy completes and changes
      nothing. */
  predicate StopsAtFirstUpload(bucket: map<string, Bytes>, cloud: string, tree: map<string, Bytes>, uploaded: map<string, Bytes>, aborted: bool) {
    if Fresh(bucket, cloud, tree) == {} then !aborted && uploaded == bucket
    else aborted && exists rel :: rel in Fresh(bucket, cloud, tree) && uploaded == bucket[Join(cloud, rel) := tree[rel]]
  }

  /** The loop of `copy_to_cloud` as written. `aborted`: the NameError was
      raised; no PathStorage row is stored either way. */
  method UploadFilesAsWritten(bucket: map<string, Bytes>, tree: map<string, Bytes>, cloudPath: string)
    returns (uploaded: map<string, Bytes>, aborted: bool)
    ensures StopsAtFirstUpload(bucket, cloudPath, tree, uploaded, aborted)
  {
    uploaded, aborted := bucket, false;
    var pending := tree.Keys;
    while pending != {}
      invariant pending <= tree.Keys
      invariant Fresh(bucket, cloudPath, tree) <= pending
      decreases pending
    {
      var rel :| rel in pending;
      var blob := Join(cloudPath, rel);
      if blob !in bucket {
        uploaded, aborted := bucket[blob := tree[rel]], true;
        assert rel in Fresh(bucket, cloudPath, tree);
        return;
      }
      pending := pending - {rel};
    }
  }

  /** The NameError loses data: whenever a folder has a file to upload, the
      copy as written ends the run after one blob with no PathStorage row,
      where the corrected copy stores a row for every fresh file; with two
      fresh files, a file the corrected copy uploads is missing. */
  lemma NameErrorEndsRun(bucket: map<string, Bytes>, cloud: string, tree: map<string, Bytes>, uploaded: map<string, Bytes>, aborted: bool, record: PathRecord)
    requires StopsAtFirstUpload(bucket, cloud, tree, uploaded, aborted)
    requires Fresh(bucket, cloud, tree) != {}
    ensures aborted && |Repeat(record, |Fresh(bucket, cloud, tree)|)| >= 1
    ensures |Fresh(bucket, cloud, tree)| >= 2 ==> uploaded != Upload(bucket, cloud, tree)
  {
    var newFiles := Fresh(bucket, cloud, tree);
    var rel :| rel in newFiles && uploaded == bucket[Join(cloud, rel) := tree[rel]];
    if |newFiles| >= 2 {
      assert |newFiles - {rel}| == |newFiles| - 1;
      var other :| other in newFiles - {rel};
      if Join(cloud, other) == Join(cloud, rel) {
        JoinInjective(cloud, other, rel);
      }
      assert Join(cloud, other) !in uploaded;
      assert Join(cloud, other) in Upload(bucket, cloud, tree);
    }
  }

  /** One concrete folder: a single file `scan.tif` below an empty bucket. The
      copy as written uploads it and ends the run with no row stored; the
      corrected copy uploads it and stores one row. */
  lemma NameErrorExample(uploaded: map<string, Bytes>, aborted: bool, record: PathRecord)
    requires StopsAtFirstUpload(map[], "Job/ScanX/Primary", map["scan.tif" := [1]], uploaded, aborted)
    ensures aborted && uploaded == map["Job/ScanX/Primary/scan.tif" := [1]]
    ensures Repeat(record, |Fresh(map[], "Job/ScanX/Primary", map["scan.tif" := [1]])|) == [record]
  {
    var tree: map<string, Bytes> := map["scan.tif" := [1]];
    assert "scan.tif" in Fresh(map[], "Job/ScanX/Primary", tree);
    assert Fresh(map[], "Job/ScanX/Primary", tree) == {"scan.tif"};
    assert Join("Job/ScanX/Primary", "scan.tif") == "Job/ScanX/Primary/scan.tif";
  }

  // ---------------------------------------------------------------------------
  // The job loop of main

  /** `copy_to_cloud` of one folder with its PathStorage rows. */
  function CopyFolderUp(s: State, fs: Local, jobId: int, localPath: string, cloudPath: string): State {
    s.(bucket := CopyFolder(s.bucket, fs, localPath, cloudPath),
       paths := s.paths + UploadRecords(s.bucket, fs, jobId, localPath, cloudPath))
  }

  /** `copy_to_cloud` on the stores. */
  method CopyToCloud(st: Stores, jobId: int, localPath: string, cloudPath: string)
    modifies st
    ensures st.Snapshot() == CopyFolderUp(old(st.Snapshot()), old(st.Disk()), jobId, localPath, cloudPath)
    ensures st.Disk() == old(st.Disk())
  {
    ghost var s, fs := st.Snapshot(), st.Disk();
    assert s == State(st.cursorFile, st.bucket, st.tables, st.pathStorage);
    var uploaded, recorded := UploadFilesRecording(st.bucket, Walk(st.files, localPath), cloudPath, PathRecord(jobId, localPath, cloudPath));
    CopyFolderUpIs(s, fs, jobId, localPath, cloudPath, uploaded, recorded);
    st.bucket, st.pathStorage := uploaded, st.pathStorage + recorded;
    assert st.Snapshot() == State(s.cursor, uploaded, s.tables, s.paths + recorded);
  }

  /** The state `CopyToCloud` leaves, field by field. */
  lemma CopyFolderUpIs(s: State, fs: Local, jobId: int, localPath: string, cloudPath: string,
                       uploaded: map<string, Bytes>, recorded: seq<PathRecord>)
    requires uploaded == Upload(s.bucket, cloudPath, Walk(fs.files, localPath))
    requires recorded == Repeat(PathRecord(jobId, localPath, cloudPath), |Fresh(s.bucket, cloudPath, Walk(fs.files, localPath))|)
    ensures CopyFolderUp(s, fs, jobId, localPath, cloudPath) == State(s.cursor, uploaded, s.tables, s.paths + recorded)
  {
  }

  /** The loop over a job's (local, cloud) path pairs: a pair whose local path
      is missing is skipped; otherwise the folder is copied. */
  function UpScanAreas(s: State, found: bool, fs: Local, jobId: int, pairs: seq<(string, string)>): (State, bool)
    decreases |pairs|
  {
    if pairs == [] then (s, found)
    else
      var (localPath, cloudPath) := pairs[0];
      if !Exists(fs, localPath) then UpScanAreas(s, found, fs, jobId, pairs[1..])
      else UpScanAreas(CopyFolderUp(s, fs, jobId, localPath, cloudPath), true, fs, jobId, pairs[1..])
  }

  /** One iteration of the job loop: a job at or below the cursor is skipped;
      a job with no local folder is skipped after its paths are derived;
      otherwise its folders are copied and its rows inserted. The cursor file
      is not written. */
  function UpJob(s: State, fs: Local, src: Source, faults: Faults, last: int, job: JobRecord): Outcome<State> {
    if job.id <= last then Outcome(s, false)
    else
      var (s1, found) := UpScanAreas(s, false, fs, job.id, JobPathPairs(src, job));
      if !found then Outcome(s1, false)
      else
        var inserted := InsertJobRows(s1.tables, src, job, faults);
        Outcome(s1.(tables := inserted.value), inserted.failed)
  }

  /** The job loop over the jobs in query order; it ends at the first error
      other than an integrity error. */
  function UpJobs(s: State, fs: Local, src: Source, faults: Faults, last: int, jobs: seq<JobRecord>): Outcome<State>
    decreases |jobs|
  {
    if jobs == [] then Outcome(s, false)
    else
      var o := UpJob(s, fs, src, faults, last, jobs[0]);
      if o.failed then o else UpJobs(o.value, fs, src, faults, last, jobs[1..])
  }

  /** The job loop of `main`. */
  method RunUp(st: Stores, src: Source, faults: Faults) returns (aborted: bool)
    modifies st
    ensures var o := UpJobs(old(st.Snapshot()), old(st.Disk()), src, faults, CursorValue(old(st.cursorFile)), src.jobs);
      st.Snapshot() == o.value && aborted == o.failed
    ensures st.Disk() == old(st.Disk())
  {
    var last := st.ReadCursor();
    ghost var fs := st.Disk();
    ghost var goal := UpJobs(st.Snapshot(), fs, src, faults, last, src.jobs);
    aborted := false;
    var i := 0;
    while i < |src.jobs|
      invariant 0 <= i <= |src.jobs|
      invariant st.Disk() == fs
      invariant UpJobs(st.Snapshot(), fs, src, faults, last, src.jobs[i..]) == goal
    {
      var job := src.jobs[i];
      assert src.jobs[i..][1..] == src.jobs[i + 1..];
      if job.id <= last {
        i := i + 1;
        continue;
      }
      var failed := UpOneJob(st, src, faults, last, job);
      if failed {
        aborted := true;
        return;
      }
      i := i + 1;
    }
  }

  /** The body of the job loop for a job above the cursor. */
  method UpOneJob(st: Stores, src: Source, faults: Faults, last: int, job: JobRecord) returns (failed: bool)
    requires job.id > last
    modifies st
    ensures var o := UpJob(old(st.Snapshot()), old(st.Disk()), src, faults, last, job);
      st.Snapshot() == o.value && failed == o.failed
    ensures st.Disk() == old(st.Disk())
  {
    var localPaths, cloudPaths := GeneratePaths(src.scanAreas, job.id, job.name);
    var filesExist := UpCopyAreas(st, job.id, localPaths, cloudPaths, JobPathPairs(src, job));
    if !filesExist {
      return false;
    }
    failed := st.InsertJob(src, job, faults);
  }

  /** The loop over the zipped path lists of one job: a missing local path
      is skipped, an existing one copied. */
  method UpCopyAreas(st: Stores, jobId: int, localPaths: seq<string>, cloudPaths: seq<string>, ghost pairs: seq<(string, string)>)
    returns (filesExist: bool)
    requires |pairs| == |localPaths| == |cloudPaths|
    requires forall k :: 0 <= k < |pairs| ==> pairs[k] == (localPaths[k], cloudPaths[k])
    modifies st
    ensures (st.Snapshot(), filesExist) == UpScanAreas(old(st.Snapshot()), false, old(st.Disk()), jobId, pairs)
    ensures st.Disk() == old(st.Disk())
  {
    ghost var fs := st.Disk();
    ghost var before := st.Snapshot();
    filesExist := false;
    for k := 0 to |localPaths|
      invariant st.Disk() == fs
      invariant UpScanAreas(st.Snapshot(), filesExist, fs, jobId, pairs[k..]) == UpScanAreas(before, false, fs, jobId, pairs)
    {
      assert pairs[k..][1..] == pairs[k + 1..];
      assert pairs[k] == (localPaths[k], cloudPaths[k]);
      if !Exists(st.Disk(), localPaths[k]) {
        continue;
      }
      CopyToCloud(st, jobId, localPaths[k], cloudPaths[k]);
      filesExist := true;
    }
    assert pairs[|localPaths|..] == [];
  }



  // ---------------------------------------------------------------------------
  // Properties of the job loop

  /** Copying a folder a second time uploads nothing and stores no row: every
      blob exists after the first copy. */
  lemma CopyFolderUpIdempotent(s: State, fs: Local, jobId: int, localPath: string, cloudPath: string)
    ensures var s1 := CopyFolderUp(s, fs, jobId, localPath, cloudPath);
      CopyFolderUp(s1, fs, jobId, localPath, cloudPath) == s1
  {
    var tree := Walk(fs.files, localPath);
    UploadIdempotent(s.bucket, cloudPath, tree);
    var s1 := CopyFolderUp(s, fs, jobId, localPath, cloudPath);
    assert UploadRecords(s1.bucket, fs, jobId, localPath, cloudPath) == [];
  }

  /** A folder copy keeps every blob and row, leaves the cursor and the tables
      alone, puts every file of the folder in the bucket, and stores the
      folder's row once per file whose blob was missing. */
  lemma CopyFolderUpGrows(s: State, fs: Local, jobId: int, localPath: string, cloudPath: string)
    ensures var s' := CopyFolderUp(s, fs, jobId, localPath, cloudPath);
      && Grows(s, s') && s'.cursor == s.cursor && s'.tables == s.tables
      && Uploaded(s'.bucket, fs, PathRecord(jobId, localPath, cloudPath))
      && |s'.paths| == |s.paths| + |Fresh(s.bucket, cloudPath, Walk(fs.files, localPath))|
  {
    UploadKeepsAndAdds(s.bucket, cloudPath, Walk(fs.files, localPath));
    var s' := CopyFolderUp(s, fs, jobId, localPath, cloudPath);
    assert s'.paths[..|s.paths|] == s.paths;
  }

  /** The scan-area loop through a pair whose folder exists. */
  lemma UpScanAreasUnfold(s: State, found: bool, fs: Local, jobId: int, pairs: seq<(string, string)>)
    requires pairs != [] && Exists(fs, pairs[0].0)
    ensures UpScanAreas(s, found, fs, jobId, pairs)
         == UpScanAreas(CopyFolderUp(s, fs, jobId, pairs[0].0, pairs[0].1), true, fs, jobId, pairs[1..])
  {
  }

  /** The scan-area loop only grows the bucket and PathStorage; it reports a
      folder found exactly when one of the pairs has an existing local path,
      and changes nothing when none has. */
  lemma {:induction false} UpScanAreasGrows(s: State, found: bool, fs: Local, jobId: int, pairs: seq<(string, string)>)
    decreases |pairs|
    ensures var (s', found') := UpScanAreas(s, found, fs, jobId, pairs);
      && Grows(s, s') && s'.cursor == s.cursor && s'.tables == s.tables
      && (found' <==> found || exists p :: p in pairs && Exists(fs, p.0))
      && (!found' ==> s' == s)
  {
    if pairs != [] {
      var rest := pairs[1..];
      assert forall x :: x in rest ==> x in pairs;
      assert forall x :: x in pairs ==> x == pairs[0] || x in rest;
      if !Exists(fs, pairs[0].0) {
        UpScanAreasGrows(s, found, fs, jobId, rest);
      } else {
        var s1 := CopyFolderUp(s, fs, jobId, pairs[0].0, pairs[0].1);
        UpScanAreasUnfold(s, found, fs, jobId, pairs);
        CopyFolderUpGrows(s, fs, jobId, pairs[0].0, pairs[0].1);
        UpScanAreasGrows(s1, true, fs, jobId, rest);
        GrowsTransitive(s, s1, UpScanAreas(s1, true, fs, jobId, rest).0);
      }
    }
  }

  /** `n` copies of a row recorded for the pairs are all recorded for them. */
  lemma RepeatRecorded(before: seq<PathRecord>, record: PathRecord, n: nat, fs: Local, jobId: int, pairs: seq<(string, string)>)
    requires RecordFor(record, fs, jobId, pairs)
    ensures RecordedFrom(before + Repeat(record, n), |before|, fs, jobId, pairs)
  {
    var paths := before + Repeat(record, n);
    forall i | |before| <= i < |paths| ensures RecordFor(paths[i], fs, jobId, pairs) {
      assert paths[i] in Repeat(record, n);
    }
  }

  /** Rows recorded from `from` up to the end of a prefix, and from there to
      the end, are recorded from `from`. */
  lemma RecordedFromPrefix(paths: seq<PathRecord>, mid: seq<PathRecord>, from: nat, fs: Local, jobId: int, pairs: seq<(string, string)>)
    requires |mid| <= |paths| && paths[..|mid|] == mid
    requires RecordedFrom(mid, from, fs, jobId, pairs) && RecordedFrom(paths, |mid|, fs, jobId, pairs)
    ensures RecordedFrom(paths, from, fs, jobId, pairs)
  {
    forall i | from <= i < |paths| ensures RecordFor(paths[i], fs, jobId, pairs) {
      if i < |mid| {
        assert paths[i] == mid[i];
      }
    }
  }

  /** Every PathStorage row the scan-area loop stores is one of the pairs with
      an existing local folder. */
  lemma {:induction false} UpScanAreasRecords(s: State, found: bool, fs: Local, jobId: int, pairs: seq<(string, string)>)
    decreases |pairs|
    ensures RecordedFrom(UpScanAreas(s, found, fs, jobId, pairs).0.paths, |s.paths|, fs, jobId, pairs)
  {
    if pairs != [] {
      var rest := pairs[1..];
      if !Exists(fs, pairs[0].0) {
        UpScanAreasRecords(s, found, fs, jobId, rest);
        RecordedFromWiden(UpScanAreas(s, found, fs, jobId, rest).0.paths, |s.paths|, fs, jobId, pairs);
      } else {
        var s1 := CopyFolderUp(s, fs, jobId, pairs[0].0, pairs[0].1);
        UpScanAreasUnfold(s, found, fs, jobId, pairs);
        UpScanAreasRecords(s1, true, fs, jobId, rest);
        UpScanAreasGrows(s1, true, fs, jobId, rest);
        var paths := UpScanAreas(s1, true, fs, jobId, rest).0.paths;
        RecordedFromWiden(paths, |s1.paths|, fs, jobId, pairs);
        var record := PathRecord(jobId, pairs[0].0, pairs[0].1);
        RepeatRecorded(s.paths, record, |Fresh(s.bucket, pairs[0].1, Walk(fs.files, pairs[0].0))|, fs, jobId, pairs);
        RecordedFromPrefix(paths, s1.paths, |s.paths|, fs, jobId, pairs);
      }
    }
  }

  /** After the scan-area loop, every folder of the pairs that exists locally
      has all its files in the bucket. */
  lemma {:induction false} UpScanAreasUploads(s: State, found: bool, fs: Local, jobId: int, pairs: seq<(string, string)>)
    decreases |pairs|
    ensures AllUploaded(UpScanAreas(s, found, fs, jobId, pairs).0.bucket, fs, jobId, pairs)
  {
    if pairs != [] {
      var rest := pairs[1..];
      if !Exists(fs, pairs[0].0) {
        UpScanAreasUploads(s, found, fs, jobId, rest);
        AllUploadedWiden(UpScanAreas(s, found, fs, jobId, rest).0.bucket, fs, jobId, pairs);
      } else {
        var s1 := CopyFolderUp(s, fs, jobId, pairs[0].0, pairs[0].1);
        UpScanAreasUnfold(s, found, fs, jobId, pairs);
        CopyFolderUpGrows(s, fs, jobId, pairs[0].0, pairs[0].1);
        UpScanAreasUploads(s1, true, fs, jobId, rest);
        UpScanAreasGrows(s1, true, fs, jobId, rest);
        var bucket := UpScanAreas(s1, true, fs, jobId, rest).0.bucket;
        UploadedGrows(s1.bucket, bucket, fs, PathRecord(jobId, pairs[0].0, pairs[0].1));
        AllUploadedWiden(bucket, fs, jobId, pairs);
      }
    }
  }

  /** A job at or below the cursor, or one none of whose derived local
      folders exists, leaves every store as it was. */
  lemma UpJobSkipped(s: State, fs: Local, src: Source, faults: Faults, last: int, job: JobRecord)
    requires job.id <= last || !HasFiles(fs, src, job)
    ensures UpJob(s, fs, src, faults, last, job) == Outcome(s, false)
  {
    UpScanAreasGrows(s, false, fs, job.id, JobPathPairs(src, job));
  }

  /** One job's effect: the cursor file is untouched, stores only grow, and
      every PathStorage row stored is for the job, above the cursor, one of
      its derived pairs, with an existing and uploaded local folder. */
  lemma UpJobEffect(s: State, fs: Local, src: Source, faults: Faults, last: int, job: JobRecord)
    ensures var o := UpJob(s, fs, src, faults, last, job);
      && o.value.cursor == s.cursor
      && Grows(s, o.value)
      && (forall i :: |s.paths| <= i < |o.value.paths| ==>
            && job.id > last
            && RecordFor(o.value.paths[i], fs, job.id, JobPathPairs(src, job))
            && Uploaded(o.value.bucket, fs, o.value.paths[i]))
  {
    if job.id > last {
      var pairs := JobPathPairs(src, job);
      UpScanAreasGrows(s, false, fs, job.id, pairs);
      UpScanAreasRecords(s, false, fs, job.id, pairs);
      UpScanAreasUploads(s, false, fs, job.id, pairs);
      var (s1, found) := UpScanAreas(s, false, fs, job.id, pairs);
      forall i | |s.paths| <= i < |s1.paths|
        ensures RecordFor(s1.paths[i], fs, job.id, pairs) && Uploaded(s1.bucket, fs, s1.paths[i])
      {
        var r := s1.paths[i];
        assert RecordFor(r, fs, job.id, pairs);
        assert r == PathRecord(job.id, r.localPath, r.cloudPath);
      }
      if found {
        InsertJobRowsKeeps(s1.tables, src, job, faults);
        var o := UpJob(s, fs, src, faults, last, job);
        assert Grows(s1, o.value);
        GrowsTransitive(s, s1, o.value);
      }
    }
  }

  /** The run never writes the cursor file: a second run starts from the same
      cursor and revisits every job above it. */
  lemma {:induction false} UpJobsKeepsCursor(s: State, fs: Local, src: Source, faults: Faults, last: int, jobs: seq<JobRecord>)
    decreases |jobs|
    ensures UpJobs(s, fs, src, faults, last, jobs).value.cursor == s.cursor
  {
    if jobs != [] {
      UpJobEffect(s, fs, src, faults, last, jobs[0]);
      var o := UpJob(s, fs, src, faults, last, jobs[0]);
      if !o.failed {
        UpJobsKeepsCursor(o.value, fs, src, faults, last, jobs[1..]);
      }
    }
  }

  /** A run does the same as a run over only the jobs above the cursor. */
  lemma {:induction false} UpJobsSkipsSettled(s: State, fs: Local, src: Source, faults: Faults, last: int, jobs: seq<JobRecord>)
    decreases |jobs|
    ensures UpJobs(s, fs, src, faults, last, jobs) == UpJobs(s, fs, src, faults, last, Pending(jobs, last))
  {
    if jobs != [] {
      if jobs[0].id <= last {
        UpJobSkipped(s, fs, src, faults, last, jobs[0]);
        UpJobsSkipsSettled(s, fs, src, faults, last, jobs[1..]);
      } else {
        var o := UpJob(s, fs, src, faults, last, jobs[0]);
        if !o.failed {
          UpJobsSkipsSettled(o.value, fs, src, faults, last, jobs[1..]);
        }
      }
    }
  }

  /** A run never overwrites a blob or a row and only appends to
      PathStorage; every row it appends is a `RunRecord`. */
  lemma {:induction false} UpJobsEffect(s: State, fs: Local, src: Source, faults: Faults, last: int, jobs: seq<JobRecord>)
    decreases |jobs|
    ensures var o := UpJobs(s, fs, src, faults, last, jobs);
      && Grows(s, o.value)
      && forall i :: |s.paths| <= i < |o.value.paths| ==> RunRecord(o.value.paths[i], o.value.bucket, fs, src, last, jobs)
  {
    if jobs != [] {
      var j := jobs[0];
      var o1 := UpJob(s, fs, src, faults, last, j);
      UpJobEffect(s, fs, src, faults, last, j);
      var o := UpJobs(s, fs, src, faults, last, jobs);
      if o1.failed {
        forall i | |s.paths| <= i < |o.value.paths|
          ensures RunRecord(o.value.paths[i], o.value.bucket, fs, src, last, jobs)
        {
          assert RecordFor(o.value.paths[i], fs, j.id, JobPathPairs(src, j));
        }
      } else {
        var rest := jobs[1..];
        UpJobsEffect(o1.value, fs, src, faults, last, rest);
        GrowsTransitive(s, o1.value, o.value);
        forall i | |s.paths| <= i < |o.value.paths|
          ensures RunRecord(o.value.paths[i], o.value.bucket, fs, src, last, jobs)
        {
          if i < |o1.value.paths| {
            assert o.value.paths[i] == o1.value.paths[i] by {
              assert o.value.paths[..|o1.value.paths|] == o1.value.paths;
            }
            var r := o.value.paths[i];
            assert RecordFor(r, fs, j.id, JobPathPairs(src, j));
            assert Uploaded(o.value.bucket, fs, r);
          } else {
            var r := o.value.paths[i];
            assert RunRecord(r, o.value.bucket, fs, src, last, rest);
            var j' :| j' in rest && RecordFor(r, fs, j'.id, JobPathPairs(src, j'));
            assert j' in jobs;
          }
        }
      }
    }
  }
}
