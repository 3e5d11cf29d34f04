/** Copying a job's rows from the instrument's database into the destination
    database (`insert_data_into_mysql` and the Job insert of the upload loop).
    A destination table is a map from primary key to row. An insert whose key
    is already present raises an integrity error, and so does a row that
    breaks another constraint (a foreign key, a NOT NULL column); the copy
    catches both. A row the destination refuses with any other error raises
    an error the copy does not catch. */
module Rows {
  import opened Text
  import opened Naming

  datatype Table = Job | JobTask | JobEvent | AcquireTask | AcquireSettings | InstrumentInformation | ScanArea

  /** One row: its primary key, the integer columns the copy can filter on,
      and the remaining cells, which are copied verbatim. */
  datatype Row = Row(key: int, links: map<string, int>, cells: seq<string>)

  /** A row of the source Job table: `job[0]` is the id, `job[1]` the name. */
  datatype JobRecord = JobRecord(id: int, name: string, rest: seq<string>)

  /** The instrument's database: its Job table in query order, the five child
      tables other than ScanArea, and the ScanArea table, which path derivation
      reads too. */
  datatype Source = Source(jobs: seq<JobRecord>, children: map<Table, seq<Row>>, scanAreas: seq<ScanAreaRecord>)

  type Tables = map<Table, map<int, Row>>

  datatype Outcome<T> = Outcome(value: T, failed: bool)

  /** The rows the destination refuses, by table and key: `rejected` with an
      integrity error other than a duplicate key, `fatal` with an error that is
      not an integrity error. */
  datatype Faults = Faults(rejected: set<(Table, int)>, fatal: set<(Table, int)>)

  /** Inserting row `key` into `t` raises an integrity error: the key is
      present, or the row breaks another constraint. */
  predicate Refused(dest: map<int, Row>, t: Table, key: int, faults: Faults) {
    key in dest || (t, key) in faults.rejected
  }

  /** The six child tables and the column each query filters on with the job
      id, in the order the upload loop copies them. */
  const ChildQueries: seq<(Table, string)> := [
    (JobTask, "Job_id"),
    (JobEvent, "Job_id"),
    (AcquireTask, "JobTask_id"),
    (AcquireSettings, "OriginalAcquireTask_id"),
    (InstrumentInformation, "Id"),
    (ScanArea, "AcquireSettings_id")
  ]

  function JobRow(job: JobRecord): Row {
    Row(job.id, map["Id" := job.id], [job.name] + job.rest)
  }

  function ScanAreaRow(a: ScanAreaRecord): Row {
    Row(a.id, map["AcquireSettings_id" := a.settingsId], [a.name, IntToString(a.orderIndex), if a.enabled then "1" else "0"])
  }

  /** The rows of a source table, in table order. */
  function SourceRows(src: Source, t: Table): seq<Row> {
    if t == ScanArea then seq(|src.scanAreas|, i requires 0 <= i < |src.scanAreas| => ScanAreaRow(src.scanAreas[i]))
    else if t in src.children then src.children[t]
    else []
  }

  /** The rows of a destination table (an absent table is empty). */
  function TableRows(tables: Tables, t: Table): map<int, Row> {
    if t in tables then tables[t] else map[]
  }

  /** `SELECT * FROM table WHERE column = value`, in table order. */
  function Select(rows: seq<Row>, column: string, value: int): (selected: seq<Row>)
    ensures forall r :: r in selected <==> r in rows && column in r.links && r.links[column] == value
  {
    if rows == [] then []
    else
      var rest := Select(rows[1..], column, value);
      if column in rows[0].links && rows[0].links[column] == value then [rows[0]] + rest else rest
  }

  /** The loop of `insert_data_into_mysql` over the selected rows: a row that
      raises an integrity error is skipped, a fatal row ends the copy with the
      rows before it committed, any other row is inserted. */
  function CopyRows(dest: map<int, Row>, t: Table, rows: seq<Row>, faults: Faults): Outcome<map<int, Row>>
    decreases |rows|
  {
    if rows == [] then Outcome(dest, false)
    else if Refused(dest, t, rows[0].key, faults) then CopyRows(dest, t, rows[1..], faults)
    else if (t, rows[0].key) in faults.fatal then Outcome(dest, true)
    else CopyRows(dest[rows[0].key := rows[0]], t, rows[1..], faults)
  }

  /** The six `insert_data_into_mysql` calls, in order; an uncaught error in
      one table ends the sequence. */
  function CopyChildren(tables: Tables, src: Source, jobId: int, queries: seq<(Table, string)>, faults: Faults): Outcome<Tables>
    decreases |queries|
  {
    if queries == [] then Outcome(tables, false)
    else
      var (t, column) := queries[0];
      var c := CopyRows(TableRows(tables, t), t, Select(SourceRows(src, t), column, jobId), faults);
      var tables' := tables[t := c.value];
      if c.failed then Outcome(tables', true)
      else CopyChildren(tables', src, jobId, queries[1..], faults)
  }

  /** The `try` block of the upload loop: insert the Job row, then copy the
      children. An integrity error on the Job row is caught by the handler
      around the whole block, so no child table is copied. */
  function InsertJobRows(tables: Tables, src: Source, job: JobRecord, faults: Faults): Outcome<Tables> {
    var jobs := TableRows(tables, Job);
    if Refused(jobs, Job, job.id, faults) then Outcome(tables, false)
    else if (Job, job.id) in faults.fatal then Outcome(tables, true)
    else CopyChildren(tables[Job := jobs[job.id := JobRow(job)]], src, job.id, ChildQueries, faults)
  }

  // ---------------------------------------------------------------------------
  // The destination only grows

  /** Every row of `old` is still in `new`, unchanged. */
  predicate Keeps(old_: map<int, Row>, new_: map<int, Row>) {
    forall k :: k in old_ ==> k in new_ && new_[k] == old_[k]
  }

  predicate KeepsAll(old_: Tables, new_: Tables) {
    forall t :: Keeps(TableRows(old_, t), TableRows(new_, t))
  }

  lemma KeepsAllTransitive(a: Tables, b: Tables, c: Tables)
    requires KeepsAll(a, b) && KeepsAll(b, c)
    ensures KeepsAll(a, c)
  {
    forall t ensures Keeps(TableRows(a, t), TableRows(c, t)) {
      assert Keeps(TableRows(a, t), TableRows(b, t));
      assert Keeps(TableRows(b, t), TableRows(c, t));
    }
  }

  /** Copying never overwrites a row and adds only selected rows; without a
      fatal error, every selected row's key is present afterwards unless the
      row was rejected; with one, the fatal row is missing. */
  lemma {:induction false} CopyRowsEffect(dest: map<int, Row>, t: Table, rows: seq<Row>, faults: Faults)
    decreases |rows|
    ensures var c := CopyRows(dest, t, rows, faults);
      && Keeps(dest, c.value)
      && (forall k :: k in c.value ==> k in dest || (c.value[k] in rows && c.value[k].key == k))
      && (!c.failed ==> forall r :: r in rows ==> r.key in c.value || (t, r.key) in faults.rejected)
      && (c.failed ==> exists r :: r in rows && (t, r.key) in faults.fatal && r.key !in c.value)
  {
    if rows != [] {
      var r := rows[0];
      assert forall x :: x in rows[1..] ==> x in rows;
      if Refused(dest, t, r.key, faults) {
        CopyRowsEffect(dest, t, rows[1..], faults);
      } else if (t, r.key) !in faults.fatal {
        CopyRowsEffect(dest[r.key := r], t, rows[1..], faults);
      }
    }
  }

  /** Copying the same rows again after a copy that did not fail changes
      nothing: every key is present, so every insert is a duplicate. */
  lemma {:induction false} CopyRowsIdempotent(dest: map<int, Row>, t: Table, rows: seq<Row>, faults: Faults)
    decreases |rows|
    requires forall r :: r in rows ==> r.key in dest
    ensures CopyRows(dest, t, rows, faults) == Outcome(dest, false)
  {
    if rows != [] {
      assert forall x :: x in rows[1..] ==> x in rows;
      CopyRowsIdempotent(dest, t, rows[1..], faults);
    }
  }

  lemma {:induction false} CopyChildrenKeeps(tables: Tables, src: Source, jobId: int, queries: seq<(Table, string)>, faults: Faults)
    decreases |queries|
    ensures KeepsAll(tables, CopyChildren(tables, src, jobId, queries, faults).value)
  {
    if queries != [] {
      var (t, column) := queries[0];
      var c := CopyRows(TableRows(tables, t), t, Select(SourceRows(src, t), column, jobId), faults);
      CopyRowsEffect(TableRows(tables, t), t, Select(SourceRows(src, t), column, jobId), faults);
      var tables' := tables[t := c.value];
      assert KeepsAll(tables, tables') by {
        forall u ensures Keeps(TableRows(tables, u), TableRows(tables', u)) {
          if u != t { assert TableRows(tables', u) == TableRows(tables, u); }
        }
      }
      if !c.failed {
        CopyChildrenKeeps(tables', src, jobId, queries[1..], faults);
        KeepsAllTransitive(tables, tables', CopyChildren(tables', src, jobId, queries[1..], faults).value);
      }
    }
  }

  /** Inserting a job's rows never overwrites a destination row. */
  lemma InsertJobRowsKeeps(tables: Tables, src: Source, job: JobRecord, faults: Faults)
    ensures KeepsAll(tables, InsertJobRows(tables, src, job, faults).value)
  {
    var jobs := TableRows(tables, Job);
    if !Refused(jobs, Job, job.id, faults) && (Job, job.id) !in faults.fatal {
      var tables' := tables[Job := jobs[job.id := JobRow(job)]];
      assert KeepsAll(tables, tables') by {
        forall u ensures Keeps(TableRows(tables, u), TableRows(tables', u)) {
          if u != Job { assert TableRows(tables', u) == TableRows(tables, u); }
        }
      }
      CopyChildrenKeeps(tables', src, job.id, ChildQueries, faults);
      KeepsAllTransitive(tables, tables', InsertJobRows(tables, src, job, faults).value);
    }
  }

  // ---------------------------------------------------------------------------
  // Completeness and order

  /** Every row the query for `(t, column)` selects for the job is present,
      unless the destination rejected it. */
  predicate Copied(tables: Tables, src: Source, jobId: int, q: (Table, string), faults: Faults) {
    forall r :: r in Select(SourceRows(src, q.0), q.1, jobId) ==> r.key in TableRows(tables, q.0) || (q.0, r.key) in faults.rejected
  }

  /** The tables after position `i` of the order are the same in both. */
  predicate UntouchedAfter(before: Tables, after: Tables, queries: seq<(Table, string)>, i: int) {
    forall j :: 0 <= i < j < |queries| ==> TableRows(after, queries[j].0) == TableRows(before, queries[j].0)
  }

  /** Without a fatal error, every selected row of every table is present
      afterwards unless it was rejected. */
  lemma {:induction false} CopyChildrenComplete(tables: Tables, src: Source, jobId: int, queries: seq<(Table, string)>, faults: Faults)
    decreases |queries|
    ensures var o := CopyChildren(tables, src, jobId, queries, faults);
      !o.failed ==> forall q :: q in queries ==> Copied(o.value, src, jobId, q, faults)
  {
    if queries != [] {
      var (t, column) := queries[0];
      var rows := Select(SourceRows(src, t), column, jobId);
      var c := CopyRows(TableRows(tables, t), t, rows, faults);
      if !c.failed {
        CopyRowsEffect(TableRows(tables, t), t, rows, faults);
        var tables' := tables[t := c.value];
        var rest := queries[1..];
        CopyChildrenComplete(tables', src, jobId, rest, faults);
        CopyChildrenKeeps(tables', src, jobId, rest, faults);
        var o := CopyChildren(tables', src, jobId, rest, faults);
        if !o.failed {
          forall q | q in queries ensures Copied(o.value, src, jobId, q, faults) {
            if q == queries[0] {
              assert Copied(tables', src, jobId, q, faults);
            } else {
              assert q in rest;
            }
          }
        }
      }
    }
  }

  /** The copy in `after` stopped at table `i` of the order: the tables
      before it were copied, the query for table `i` selected a row whose
      fatal error left it out, and the tables after it are untouched. */
  predicate StoppedAt(before: Tables, after: Tables, src: Source, jobId: int, queries: seq<(Table, string)>, faults: Faults, i: int) {
    && 0 <= i < |queries|
    && (forall j :: 0 <= j < i ==> Copied(after, src, jobId, queries[j], faults))
    && (exists r :: r in Select(SourceRows(src, queries[i].0), queries[i].1, jobId)
                    && (queries[i].0, r.key) in faults.fatal && r.key !in TableRows(after, queries[i].0))
    && UntouchedAfter(before, after, queries, i)
  }

  /** A table copied before stays copied when no row is lost. */
  lemma CopiedKept(a: Tables, b: Tables, src: Source, jobId: int, q: (Table, string), faults: Faults)
    requires KeepsAll(a, b) && Copied(a, src, jobId, q, faults)
    ensures Copied(b, src, jobId, q, faults)
  {
    assert Keeps(TableRows(a, q.0), TableRows(b, q.0));
  }

  /** With a fatal error, the copy stopped at the table whose query selected
      the failing row: every table before it was copied, and the tables after
      it in the order are untouched. */
  lemma {:induction false} CopyChildrenStops(tables: Tables, src: Source, jobId: int, queries: seq<(Table, string)>, faults: Faults)
    decreases |queries|
    requires forall i, j :: 0 <= i < j < |queries| ==> queries[i].0 != queries[j].0
    ensures var o := CopyChildren(tables, src, jobId, queries, faults);
      o.failed ==> exists i :: StoppedAt(tables, o.value, src, jobId, queries, faults, i)
  {
    if queries != [] {
      var (t, column) := queries[0];
      var rows := Select(SourceRows(src, t), column, jobId);
      var c := CopyRows(TableRows(tables, t), t, rows, faults);
      CopyRowsEffect(TableRows(tables, t), t, rows, faults);
      var tables' := tables[t := c.value];
      if c.failed {
        StopsFirst(tables, src, jobId, queries, faults, c.value);
      } else {
        var rest := queries[1..];
        CopyChildrenStops(tables', src, jobId, rest, faults);
        var o := CopyChildren(tables', src, jobId, rest, faults);
        if o.failed {
          var i :| StoppedAt(tables', o.value, src, jobId, rest, faults, i);
          CopyChildrenKeeps(tables', src, jobId, rest, faults);
          StopsLater(tables, src, jobId, queries, faults, c.value, o.value, i);
        }
      }
    }
  }

  /** A fatal error in the first table stops the copy there. */
  lemma StopsFirst(tables: Tables, src: Source, jobId: int, queries: seq<(Table, string)>, faults: Faults, copied: map<int, Row>)
    requires queries != []
    requires forall i, j :: 0 <= i < j < |queries| ==> queries[i].0 != queries[j].0
    requires exists r :: r in Select(SourceRows(src, queries[0].0), queries[0].1, jobId)
                         && (queries[0].0, r.key) in faults.fatal && r.key !in copied
    ensures StoppedAt(tables, tables[queries[0].0 := copied], src, jobId, queries, faults, 0)
  {
    var after := tables[queries[0].0 := copied];
    assert TableRows(after, queries[0].0) == copied;
    forall j | 0 < j < |queries| ensures TableRows(after, queries[j].0) == TableRows(tables, queries[j].0) {
      assert queries[j].0 != queries[0].0;
    }
  }

  /** A copy that stopped at table `i` of the rest, after the first table was
      copied in full, stopped at table `i + 1` of the whole order. */
  lemma StopsLater(tables: Tables, src: Source, jobId: int, queries: seq<(Table, string)>, faults: Faults,
                   copied: map<int, Row>, after: Tables, i: int)
    requires queries != []
    requires forall i, j :: 0 <= i < j < |queries| ==> queries[i].0 != queries[j].0
    requires Copied(tables[queries[0].0 := copied], src, jobId, queries[0], faults)
    requires KeepsAll(tables[queries[0].0 := copied], after)
    requires StoppedAt(tables[queries[0].0 := copied], after, src, jobId, queries[1..], faults, i)
    ensures StoppedAt(tables, after, src, jobId, queries, faults, i + 1)
  {
    var tables' := tables[queries[0].0 := copied];
    var rest := queries[1..];
    CopiedKept(tables', after, src, jobId, queries[0], faults);
    forall j | 0 <= j < i + 1 ensures Copied(after, src, jobId, queries[j], faults) {
      if j > 0 { assert queries[j] == rest[j - 1]; }
    }
    assert queries[i + 1] == rest[i];
    forall j | i + 1 < j < |queries|
      ensures TableRows(after, queries[j].0) == TableRows(tables, queries[j].0)
    {
      assert queries[j] == rest[j - 1];
      assert queries[j].0 != queries[0].0;
    }
  }

  /** The outcome of the Job insert block: a Job row that raises an integrity
      error (already present, or rejected) leaves every table as it was;
      otherwise, without a fatal error, the Job row and every selected child
      row that was not rejected are present afterwards. */
  lemma InsertJobRowsEffect(tables: Tables, src: Source, job: JobRecord, faults: Faults)
    ensures var o := InsertJobRows(tables, src, job, faults);
      && (Refused(TableRows(tables, Job), Job, job.id, faults) ==> o == Outcome(tables, false))
      && (!Refused(TableRows(tables, Job), Job, job.id, faults) && !o.failed ==>
            && job.id in TableRows(o.value, Job) && TableRows(o.value, Job)[job.id] == JobRow(job)
            && forall q :: q in ChildQueries ==> Copied(o.value, src, job.id, q, faults))
  {
    var jobs := TableRows(tables, Job);
    if !Refused(jobs, Job, job.id, faults) && (Job, job.id) !in faults.fatal {
      var tables' := tables[Job := jobs[job.id := JobRow(job)]];
      CopyChildrenComplete(tables', src, job.id, ChildQueries, faults);
      CopyChildrenKeeps(tables', src, job.id, ChildQueries, faults);
      assert job.id in TableRows(tables', Job);
    }
  }
}
