/** The stores the migration reads and writes, and the operations cloud.py and
    cloud_up.py share: the resume cursor, the PathStorage table, the row copy
    and the upload of one folder. */
module Migration {
  import opened PosixPath
  import opened Rows
  import opened ObjectStore

  datatype Option<T> = None | Some(value: T)

  /** A row of the destination PathStorage table. */
  datatype PathRecord = PathRecord(jobId: int, localPath: string, cloudPath: string)

  /** The resume cursor file (absent or holding a job id), the bucket, the
      destination tables and the PathStorage table. */
  datatype State = State(cursor: Option<int>, bucket: map<string, Bytes>, tables: Tables, paths: seq<PathRecord>)

  /** The local file system: files by path, and the directories. */
  datatype Local = Local(files: map<string, Bytes>, dirs: set<string>)

  /** `os.path.exists(path)`. */
  predicate Exists(fs: Local, path: string) {
    path in fs.files || path in fs.dirs
  }

  /** A disk as the file system keeps it: every folder a file lies below is a
      directory. */
  ghost predicate Consistent(fs: Local) {
    forall path, folder :: path in fs.files && IsUnder(path, folder) ==> folder in fs.dirs
  }

  /** On a consistent disk, a folder that holds files exists, so the upload
      loop does not skip it. */
  lemma FolderWithFilesExists(fs: Local, folder: string)
    requires Consistent(fs) && Walk(fs.files, folder) != map[]
    ensures Exists(fs, folder)
  {
    var rel :| rel in Walk(fs.files, folder);
    var path := folder + "/" + rel;
    assert path[..|folder|] == folder;
    assert IsUnder(path, folder);
  }

  /** `get_last_uploaded_job_id`: the id in the cursor file, 0 without one. */
  function CursorValue(cursor: Option<int>): int {
    match cursor
    case None => 0
    case Some(id) => id
  }

  /** `copy_to_cloud` in its effect on the bucket: every file below the local
      folder, uploaded under the cloud folder unless its blob exists. */
  function CopyFolder(bucket: map<string, Bytes>, fs: Local, localPath: string, cloudPath: string): map<string, Bytes> {
    Upload(bucket, cloudPath, Walk(fs.files, localPath))
  }

  class Stores {
    var cursorFile: Option<int>
    var bucket: map<string, Bytes>
    var tables: Tables
    var pathStorage: seq<PathRecord>
    var files: map<string, Bytes>
    var dirs: set<string>

    constructor (s: State, fs: Local)
      ensures Snapshot() == s && Disk() == fs
    {
      cursorFile, bucket, tables, pathStorage := s.cursor, s.bucket, s.tables, s.paths;
      files, dirs := fs.files, fs.dirs;
    }

    function Snapshot(): State
      reads this
    {
      State(cursorFile, bucket, tables, pathStorage)
    }

    function Disk(): Local
      reads this
    {
      Local(files, dirs)
    }

    /** `get_last_uploaded_job_id`. */
    method ReadCursor() returns (last: int)
      ensures last == CursorValue(cursorFile)
      ensures cursorFile.None? ==> last == 0
    {
      match cursorFile
      case None => last := 0;
      case Some(id) => last := id;
    }

    /** `update_last_uploaded_job_id`: the file is overwritten with the id. */
    method WriteCursor(jobId: int)
      modifies this
      ensures Snapshot() == old(Snapshot()).(cursor := Some(jobId)) && Disk() == old(Disk())
    {
      cursorFile := Some(jobId);
    }

    /** `store_paths`: one PathStorage row. */
    method StorePaths(jobId: int, localPath: string, cloudPath: string)
      modifies this
      ensures Snapshot() == old(Snapshot()).(paths := old(pathStorage) + [PathRecord(jobId, localPath, cloudPath)])
      ensures Disk() == old(Disk())
    {
      pathStorage := pathStorage + [PathRecord(jobId, localPath, cloudPath)];
    }

    /** `insert_data_into_mysql(table, column, job_id)`: the selected rows,
        inserted one at a time; `failed` when an error other than an
        integrity error escaped. */
    method InsertDataIntoMysql(src: Source, t: Table, column: string, jobId: int, faults: Faults)
      returns (failed: bool)
      modifies this
      ensures var c := CopyRows(TableRows(old(tables), t), t, Select(SourceRows(src, t), column, jobId), faults);
        && Snapshot() == old(Snapshot()).(tables := old(tables)[t := c.value])
        && failed == c.failed
      ensures Disk() == old(Disk())
    {
      var records := Select(SourceRows(src, t), column, jobId);
      ghost var goal := CopyRows(TableRows(tables, t), t, records, faults);
      var dest := TableRows(tables, t);
      failed := false;
      var i := 0;
      while i < |records|
        invariant 0 <= i <= |records|
        invariant CopyRows(dest, t, records[i..], faults) == goal
        modifies {}
      {
        var record := records[i];
        assert records[i..][1..] == records[i + 1..];
        if Refused(dest, t, record.key, faults) {
          // integrity error: caught, next row
        } else if (t, record.key) in faults.fatal {
          failed := true;
          break;
        } else {
          dest := dest[record.key := record];
        }
        i := i + 1;
      }
      tables := tables[t := dest];
    }

    /** The Job insert and the six child copies, inside the `try` whose
        handler catches only integrity errors. */
    method InsertJob(src: Source, job: JobRecord, faults: Faults) returns (failed: bool)
      modifies this
      ensures var o := InsertJobRows(old(tables), src, job, faults);
        Snapshot() == old(Snapshot()).(tables := o.value) && failed == o.failed
      ensures Disk() == old(Disk())
    {
      var jobs := TableRows(tables, Job);
      if Refused(jobs, Job, job.id, faults) {
        // integrity error on the Job row: the whole block is skipped
        return false;
      }
      if (Job, job.id) in faults.fatal {
        return true;
      }
      tables := tables[Job := jobs[job.id := JobRow(job)]];
      ghost var start := tables;
      failed := false;
      var i := 0;
      while i < |ChildQueries|
        invariant 0 <= i <= |ChildQueries|
        invariant CopyChildren(tables, src, job.id, ChildQueries[i..], faults) == CopyChildren(start, src, job.id, ChildQueries, faults)
        invariant Snapshot() == old(Snapshot()).(tables := tables) && Disk() == old(Disk())
      {
        var (t, column) := ChildQueries[i];
        assert ChildQueries[i..][1..] == ChildQueries[i + 1..];
        failed := InsertDataIntoMysql(src, t, column, job.id, faults);
        if failed {
          break;
        }
        i := i + 1;
      }
    }

    /** `copy_to_cloud` of cloud.py: walk the local folder, then upload. */
    method CopyToCloud(localPath: string, cloudPath: string)
      modifies this
      ensures Snapshot() == old(Snapshot()).(bucket := CopyFolder(old(bucket), Disk(), localPath, cloudPath))
      ensures Disk() == old(Disk())
    {
      var tree := Walk(files, localPath);
      bucket := UploadFiles(bucket, tree, cloudPath);
    }
  }

  /** The loop of `copy_to_cloud` over the walked files: a file is uploaded
      only when its blob does not exist. The walk visits the files in an order
      the model leaves open; nothing else touches the bucket during the loop,
      so the blobs are collected and the bucket updated once. */
  method UploadFiles(bucket: map<string, Bytes>, tree: map<string, Bytes>, cloudPath: string)
    returns (uploaded: map<string, Bytes>)
    ensures uploaded == Upload(bucket, cloudPath, tree)
  {
    uploaded := bucket;
    var pending := tree.Keys;
    while pending != {}
      invariant pending <= tree.Keys
      invariant uploaded == Place(cloudPath, WalkedPart(tree, pending)) + bucket
      decreases pending
    {
      var rel :| rel in pending;
      var blob := Join(cloudPath, rel);
      UploadStep(bucket, cloudPath, tree, pending, rel);
      if blob !in uploaded {
        uploaded := uploaded[blob := tree[rel]];
      }
      pending := pending - {rel};
    }
    WalkedAll(tree);
  }

  /** The files of `tree` the walk has visited while `pending` are left. */
  function WalkedPart(tree: map<string, Bytes>, pending: set<string>): map<string, Bytes> {
    map rel | rel in tree && rel !in pending :: tree[rel]
  }

  /** One iteration of the upload loop keeps its invariant. */
  lemma UploadStep(bucket: map<string, Bytes>, cloud: string, tree: map<string, Bytes>, pending: set<string>, rel: string)
    requires rel in pending && pending <= tree.Keys
    ensures var uploaded := Place(cloud, WalkedPart(tree, pending)) + bucket;
      var blob := Join(cloud, rel);
      (if blob in uploaded then uploaded else uploaded[blob := tree[rel]])
        == Place(cloud, WalkedPart(tree, pending - {rel})) + bucket
  {
    PlaceOneMore(cloud, tree, pending, rel);
    MergeOneMore(Place(cloud, WalkedPart(tree, pending)), bucket, Join(cloud, rel), tree[rel]);
  }

  lemma WalkedAll(tree: map<string, Bytes>)
    ensures WalkedPart(tree, {}) == tree
  {
  }

  /** Adding a key below the existing blobs: it shows only when no blob has it. */
  lemma MergeOneMore(placed: map<string, Bytes>, start: map<string, Bytes>, k: string, data: Bytes)
    requires k !in placed
    ensures placed[k := data] + start == if k in placed + start then placed + start else (placed + start)[k := data]
  {
  }

  /** Placing a tree with one more file adds that file under its own key. */
  lemma PlaceInsert(cloud: string, tree: map<string, Bytes>, rel: string, data: Bytes)
    requires rel !in tree
    ensures Join(cloud, rel) !in Place(cloud, tree)
    ensures Place(cloud, tree[rel := data]) == Place(cloud, tree)[Join(cloud, rel) := data]
  {
    PlaceAbsent(cloud, tree, rel);
    PlaceInsertNew(cloud, tree, rel, data);
    PlaceInsertOld(cloud, tree, rel, data);
  }

  /** A file not in the tree has no key among the placed ones. */
  lemma PlaceAbsent(cloud: string, tree: map<string, Bytes>, rel: string)
    requires rel !in tree
    ensures Join(cloud, rel) !in Place(cloud, tree)
  {
    if Join(cloud, rel) in Place(cloud, tree) {
      var r :| r in tree && Join(cloud, rel) == Join(cloud, r);
      JoinInjective(cloud, r, rel);
    }
  }

  lemma PlaceInsertNew(cloud: string, tree: map<string, Bytes>, rel: string, data: Bytes)
    requires rel !in tree
    ensures var p := Place(cloud, tree)[Join(cloud, rel) := data];
      forall x :: x in Place(cloud, tree[rel := data]) ==> x in p && Place(cloud, tree[rel := data])[x] == p[x]
  {
    var k := Join(cloud, rel);
    var p := Place(cloud, tree);
    var p' := Place(cloud, tree[rel := data]);
    forall x | x in p' ensures x in p[k := data] && p'[x] == p[k := data][x] {
      var r :| r in tree[rel := data] && x == Join(cloud, r);
      if r != rel {
        assert x in p;
        if x == k { JoinInjective(cloud, r, rel); }
      }
    }
  }

  lemma PlaceInsertOld(cloud: string, tree: map<string, Bytes>, rel: string, data: Bytes)
    ensures forall x :: x in Place(cloud, tree) ==> x in Place(cloud, tree[rel := data])
  {
    forall x | x in Place(cloud, tree) ensures x in Place(cloud, tree[rel := data]) {
      var r :| r in tree && x == Join(cloud, r);
      assert r in tree[rel := data];
    }
  }

  /** Visiting one more file places it under its own key, which no file
      visited before has. */
  lemma PlaceOneMore(cloud: string, tree: map<string, Bytes>, pending: set<string>, rel: string)
    requires rel in pending && pending <= tree.Keys
    ensures Join(cloud, rel) !in Place(cloud, WalkedPart(tree, pending))
    ensures Place(cloud, WalkedPart(tree, pending - {rel}))
         == Place(cloud, WalkedPart(tree, pending))[Join(cloud, rel) := tree[rel]]
  {
    assert WalkedPart(tree, pending - {rel}) == WalkedPart(tree, pending)[rel := tree[rel]];
    PlaceInsert(cloud, WalkedPart(tree, pending), rel, tree[rel]);
  }
}
