# Met-db migration core in Dafny

A model of the logic in the Met-db migration scripts. `cloud.py` is the full
tool and `cloud_up.py` is its earlier upload-only version. Both move an
instrument's acquisition jobs to the cloud. Each job's scan-area image folders
are uploaded to a bucket, the job's rows are copied from the instrument's
database into a destination database, and a PathStorage table remembers which
local folder went to which bucket folder so that `download_from_cloud` can
bring a job back.

The external stores are plain values:

- the bucket: a map from blob name to bytes;
- the local disk: a map from file path to bytes, plus a set of directories;
- the destination tables: a map from table to primary key to row;
- PathStorage: a sequence of (job id, local path, cloud path) rows;
- the resume cursor file: `None` when absent, or the job id it holds.

The imperative parts are methods on the class `Migration.Stores`, or methods
that take it. Each one is proved against a function over these values, and
the properties are lemmas about those functions.

Modules:

- `Text`: Python's `str.split()`, `' '.join`, `in`, `str(int)` and `replace`.
- `PosixPath`: `os.path.join` and `relpath` with '/' as the separator. An empty
  left part of a join is dropped.
- `Naming`: `generate_paths` (shared by both scripts).
- `ObjectStore`: the folder walk, upload and restore as maps.
- `Rows`: `insert_data_into_mysql` and the Job insert block. A duplicate key,
  or a row in `faults.rejected` (a foreign-key or NOT NULL violation), raises
  an integrity error, which is caught. A row in `faults.fatal` raises any
  other database error, which is not.
- `Migration`: the stores, the cursor, `store_paths` and `copy_to_cloud`
  (shared parts).
- `Cloud`: `upload_data` and `download_from_cloud` of cloud.py.
- `CloudUp`: `copy_to_cloud` and the job loop of `main` in cloud_up.py.

The path rule for a job name containing "Continue" keeps every word of the
name but the last two in the parent folder and puts the last two, joined by a
space, below the scan name. Job "Experiment A Continue Batch 2" with scan
"ScanX" therefore goes to `Experiment A Continue/ScanX/Batch 2`
(`Naming.ContinueExample`). A name of one or two words gives an empty parent
folder, which `os.path.join` drops (`Naming.ContinueCloudPath`,
`Naming.ShortNameExample`).

The resume cursor ends at the id of the last job in query order that had a
local folder, not at the largest id (`Cloud.UploadJobsCursor`). The Job query
has no `ORDER BY`; should it return ids out of order (say 5 then 3, both with
folders), the cursor ends at 3 and the next run takes job 5 up again.

## Model

cloud_up.py repeats cloud.py's `generate_paths` (cloud_up.py:76-107), cursor read (cloud_up.py:37-42) and `insert_data_into_mysql` (cloud_up.py:123-144) line for line; the rows below cite the cloud.py copies, and the same members model both.

| member | source | states |
|---|---|---|
| Text.Contains | cloud.py:107 | Python's substring test `"Continue" in job_name` (the definition the naming rule uses) |
| Text.JoinWords | cloud.py:109-110 | `' '.join(words)`; `SplitJoinWords` proves it inverse to `split()` |
| Text.IntToString | cloud.py:115 | `str(n)` for any integer, with a minus sign below zero; `IntToStringInjective` proves it injective |
| Text.Split | cloud.py:108 | `str.split()` yields only non-empty, whitespace-free words, and yields none exactly when the string is all whitespace |
| Text.SplitJoinWords | cloud.py:108-110 | splitting words joined by single spaces gives the same words back |
| Text.ContainsWordHasWords | cloud.py:107-108 | a name containing "Continue" splits into at least one word |
| Text.NatToString | cloud.py:115 | `str(n)` is non-empty decimal digits, one digit exactly below 10 |
| Text.IntToStringInjective | cloud.py:115 | distinct integers have distinct `str` renderings |
| Text.ReplaceAbsent | cloud.py:281 | `replace('\\', '/')` leaves a path without backslashes unchanged |
| PosixPath.Join | cloud.py:111-115 | `os.path.join(a, b)` for a relative `b` with '/' as the separator, dropping an empty `a`; `RelPathOfJoin` proves `relpath` undoes it |
| PosixPath.RelPath | cloud.py:187 | `relpath` of a path below a folder is the part after the folder and its separator |
| PosixPath.RelPathOfJoin | cloud.py:285-286 | joining under a non-empty folder and taking `relpath` to it again gives the relative path back |
| PosixPath.JoinInjective | cloud.py:187 | distinct relative paths stay distinct once joined under the same folder |
| Naming.EnabledScanAreas | cloud.py:96-98 | the query keeps exactly the enabled ScanArea rows filed under the job id |
| Naming.LocalPath | cloud.py:115 | the local folder `job_id/Acquire_0/order_index`; `LocalPathInjective` proves it determines both numbers |
| Naming.ParentFolder | cloud.py:108-109 | `' '.join(words[:-2])`; with `SubFolder`, `ContinueFoldersKeepWords` proves no word is lost |
| Naming.SubFolder | cloud.py:108-110 | `' '.join(words[-2:])`; `SubFolderOfLastTwo` states its value |
| Naming.CloudPath | cloud.py:107-113 | the bucket folder of one scan area; `PlainCloudPath`, `ContinueCloudPath` and `CloudPathNonEmpty` state its shape |
| Naming.GeneratePaths | cloud.py:89-120 | two lists as long as the enabled rows; entry i is the local path and the cloud path of row i, in row order |
| Naming.ScanAreaPaths | cloud.py:104-115 | one pass of the loop: the local folder is `job_id/Acquire_0/order_index`, without "Continue" (and with a job name) the bucket folder is `job_name/scan_name/Primary`, the bucket folder is never empty, and both are the folders `LocalPath` and `CloudPath` define |
| Naming.PlainCloudPath | cloud.py:112-113 | without "Continue", the cloud path is `job_name/scan_name/Primary` |
| Naming.ContinueCloudPath | cloud.py:107-111 | with "Continue": `parent/scan/w[n-2] w[n-1]` for three or more words, `scan/w0 w1` for two, `scan/w0` for one |
| Naming.SubFolderOfLastTwo | cloud.py:110 | the sub folder of a name with two or more words is its last two words joined by one space |
| Naming.ContinueFoldersKeepWords | cloud.py:108-110 | parent and sub folder together hold every word of the name, in order, so "Continue" stays in the parent |
| Naming.CloudPathNonEmpty | cloud.py:107-113 | no derived cloud path is empty |
| Naming.LocalPathInjective | cloud.py:115 | equal local paths mean equal job id and order index; the names play no part |
| Naming.LocalPathExample | cloud.py:115 | job 42, order index 3 gives `42/Acquire_0/3` |
| Naming.ContinueExample | cloud.py:107-111 | "Experiment A Continue Batch 2" with "ScanX" gives `Experiment A Continue/ScanX/Batch 2` |
| Naming.PlainExample | cloud.py:112-113 | "Experiment A" with "ScanX" gives `Experiment A/ScanX/Primary` |
| Naming.ShortNameExample | cloud.py:107-111 | the one-word name "Continue" gives `ScanX/Continue`, with no parent folder |
| ObjectStore.Walk | cloud.py:183-187 | the walked tree has a file at `rel` exactly when the store has `folder/rel`, with its bytes |
| ObjectStore.Place | cloud.py:187 | every file lands at `join(folder, rel)` with its bytes, and nothing else is placed |
| ObjectStore.Fresh | cloud.py:190-191 | the files of the tree whose blob does not exist yet; `UploadKeepsAndAdds` and `UploadIdempotent` are about it |
| ObjectStore.Upload | cloud.py:182-193 | the bucket after uploading a tree under a folder with the existence check; `UploadKeepsAndAdds` states its contents |
| ObjectStore.UploadKeepsAndAdds | cloud.py:188-194 | upload keeps every existing blob, puts every file's key in the bucket with fresh files' bytes, and adds no other key |
| ObjectStore.UploadIdempotent | cloud.py:183-194 | uploading the same tree twice equals uploading it once, and the second time nothing is fresh |
| ObjectStore.WalkPlace | cloud.py:282-286 | listing the blobs placed under a folder and taking `relpath` gives the tree back |
| ObjectStore.PlaceWalk | cloud.py:282-286 | placing the walked files back under the folder gives exactly the store's entries below it |
| ObjectStore.UploadRestoreRoundTrip | cloud.py:279-292 | restoring an uploaded folder puts each file at its own path: uploaded bytes if its blob was fresh, the existing blob's otherwise |
| Rows.Refused | cloud.py:151-156 | an insert raises an integrity error: the key is present or the destination rejects the row |
| Rows.CopyRows | cloud.py:147-156 | the row loop of `insert_data_into_mysql`; `CopyRowsEffect` and `CopyRowsIdempotent` state its effect |
| Rows.CopyChildren | cloud.py:244-249 | the six child copies in order, stopping at an uncaught error; `CopyChildrenKeeps`, `CopyChildrenComplete` and `CopyChildrenStops` state its effect |
| Rows.InsertJobRows | cloud.py:237-256 | the Job insert and the child copies inside the `try`; `InsertJobRowsKeeps` and `InsertJobRowsEffect` state its effect |
| Rows.Select | cloud.py:144-145 | the query keeps exactly the rows whose column equals the job id |
| Rows.CopyRowsEffect | cloud.py:147-156 | the copy never overwrites a row and adds only selected rows; without an uncaught error every selected key is present unless the row was rejected, and with one the failing row is missing |
| Rows.CopyRowsIdempotent | cloud.py:147-156 | copying rows whose keys are all present is all duplicates: nothing changes and nothing fails |
| Rows.CopyChildrenKeeps | cloud.py:244-249 | the six child copies never overwrite a destination row |
| Rows.CopyChildrenComplete | cloud.py:244-249 | without an uncaught error, every selected row of every child table is present afterwards unless it was rejected |
| Rows.CopyChildrenStops | cloud.py:244-249 | with an uncaught error, the copy stopped at the table whose query selected a row with a fatal error, which is missing: every table before it was copied (rejected rows aside), and the tables after it in the fixed order are untouched |
| Rows.InsertJobRowsKeeps | cloud.py:237-256 | the Job insert block never overwrites a destination row |
| Rows.InsertJobRowsEffect | cloud.py:237-256 | a Job row that raises an integrity error (duplicate or rejected) skips all six child tables; otherwise, without an uncaught error, the Job row and every selected child row not rejected are present |
| Migration.FolderWithFilesExists | cloud.py:223-224 | on a consistent disk, a folder that holds files passes the `os.path.exists` test, so the loop does not skip it |
| Migration.Stores.ReadCursor | cloud.py:50-55 | reads the cursor file's id, or 0 when there is no file |
| Migration.Stores.WriteCursor | cloud.py:57-59 | overwrites the cursor file with the id; nothing else changes |
| Migration.Stores.StorePaths | cloud.py:125-132 | appends one PathStorage row; nothing else changes |
| Migration.Stores.InsertDataIntoMysql | cloud.py:135-156 | the table becomes the row copy of the selected rows; `failed` reports an uncaught error |
| Migration.Stores.InsertJob | cloud.py:237-256 | the tables become the outcome of the Job insert block |
| Migration.Stores.CopyToCloud | cloud.py:168-194 | only the bucket changes, to the upload of the walked folder |
| Migration.UploadFiles | cloud.py:183-194 | the per-file loop with its existence check yields the upload of the whole tree, whatever the visiting order |
| Cloud.UploadData | cloud.py:198-256 | the stores end as the job-loop function says, and `aborted` reports an uncaught insert error |
| Cloud.UploadOneJob | cloud.py:207-256 | for a job above the cursor, the stores end as the one-job function says (paths, cursor write, inserts) and `failed` reports an uncaught insert error; the local disk is untouched |
| Cloud.UploadAreas | cloud.py:220-229 | walking the zipped path lists copies and records exactly the existing pairs, in order, and `files_exist` is true iff one existed |
| Cloud.CopyScanAreas | cloud.py:220-229 | the scan-area loop of one job as a function of the stores; the `CopyScanAreas` lemmas below state its effect |
| Cloud.UploadJob | cloud.py:207-256 | one job of the loop: skip, or copy, write the cursor and insert; `UploadJobSkipped`, `UploadJobWritesCursorFirst` and `UploadJobEffect` state its effect |
| Cloud.UploadJobs | cloud.py:204-256 | the whole job loop, ending at the first uncaught error; `UploadJobsSkipsSettled`, `UploadJobsEffect` and `UploadJobsCursor` state its effect |
| Cloud.CopyScanAreasGrows | cloud.py:222-229 | the scan-area loop only grows bucket and PathStorage, sets `files_exist` exactly when some local path exists, and changes nothing otherwise |
| Cloud.CopyScanAreasPaths | cloud.py:222-229 | the loop appends exactly one PathStorage row per existing local path, in order |
| Cloud.CopyScanAreasRecords | cloud.py:222-229 | every row the loop appends is the job's id with one of its pairs whose local folder exists |
| Cloud.CopyScanAreasUploads | cloud.py:222-229 | after the loop, every existing folder of the job has all its files in the bucket |
| Cloud.UploadJobSkipped | cloud.py:210-232 | a job at or below the cursor, or with no existing local path, changes no store |
| Cloud.UploadJobWritesCursorFirst | cloud.py:231-256 | a job with files has its id written to the cursor even when its inserts then fail |
| Cloud.Pending | cloud.py:206-211 | exactly the jobs above the cursor |
| Cloud.UploadJobsSkipsSettled | cloud.py:205-211 | a run does the same as a run over only the jobs above the cursor |
| Cloud.UploadJobEffect | cloud.py:206-256 | one job only grows the stores; its PathStorage rows are its own pairs, with existing and uploaded folders |
| Cloud.UploadJobsEffect | cloud.py:198-256 | a run never overwrites a blob or row and only appends PathStorage rows for jobs of the run above the cursor, each with an existing, uploaded folder |
| Cloud.LastWithFiles | cloud.py:206-235 | the job above the cursor with files that comes last in query order (no later job above the cursor has files), or none exactly when no job above the cursor has files |
| Cloud.UploadJobsCursor | cloud.py:205-256 | after a completed run the cursor holds the last job in query order with files, or is unchanged; after an aborted run it holds an id above the one read at start |
| Cloud.JobPaths | cloud.py:271-273 | exactly the PathStorage rows of the job |
| Cloud.RestoreMap | cloud.py:281-292 | the files the download of one recorded folder writes; `RestoreRecorded` states them |
| Cloud.Restore | cloud.py:279-292 | the local files after downloading the job's folders in order; `RestoreKeeps`, `RestoreCovers` and `DownloadRestoresUpload` state its contents |
| Cloud.DownloadBlobs | cloud.py:283-292 | each listed blob is written to its local path, overwriting what was there |
| Cloud.DownloadFromCloud | cloud.py:260-292 | the local files become the restore of the job's recorded folders, in order; bucket, tables, PathStorage and cursor are unchanged |
| Cloud.RestoreRecorded | cloud.py:279-292 | downloading a recorded, uploaded folder brings every file below its local folder back to the same path with the blob's bytes |
| Cloud.RestoreKeeps | cloud.py:279-292 | a file already on disk is still there after the downloads |
| Cloud.RestoreCovers | cloud.py:279-292 | a file one folder's download writes is there afterwards, with that folder's bytes unless a later folder writes the same path |
| Cloud.DownloadRestoresUpload | cloud.py:260-292 | for each recorded folder of the job whose files are all in the bucket, every file comes back at its old path, with its blob's bytes unless a later record of the job writes the same path |
| CloudUp.Repeat | cloud_up.py:179-181 | n copies of one row: length n, and every element is that row |
| CloudUp.UploadFilesRecording | cloud_up.py:171-184 | the corrected loop uploads the tree like cloud.py and stores the folder's row once per fresh file |
| CloudUp.UploadNothingFresh | cloud_up.py:179-184 | a folder whose files all have blobs changes nothing in the bucket |
| CloudUp.UploadFilesAsWritten | cloud_up.py:171-184 | as written: with no fresh file nothing happens; otherwise one fresh file is uploaded and the run aborts |
| CloudUp.NameErrorEndsRun | cloud_up.py:179-181 | as written, a folder with a fresh file always aborts, where the corrected loop stores a row; with two fresh files, a blob is missing |
| CloudUp.NameErrorExample | cloud_up.py:181 | a one-file folder and an empty bucket: the run aborts after one blob, where the corrected loop stores one row |
| CloudUp.CopyToCloud | cloud_up.py:156-184 | the bucket becomes the upload and PathStorage gains the folder's rows; nothing else changes |
| CloudUp.CopyFolderUp | cloud_up.py:156-184 | `copy_to_cloud` with the corrected recording, as a function of the stores; `CopyFolderUpIdempotent` and `CopyFolderUpGrows` state its effect |
| CloudUp.UpScanAreas | cloud_up.py:235-242 | the scan-area loop of one job; the `UpScanAreas` lemmas below state its effect |
| CloudUp.UpJob | cloud_up.py:225-263 | one job of the loop: skip, or copy and insert; `UpJobSkipped` and `UpJobEffect` state its effect |
| CloudUp.UpJobs | cloud_up.py:223-263 | the whole job loop, ending at the first uncaught error; `UpJobsKeepsCursor`, `UpJobsSkipsSettled` and `UpJobsEffect` state its effect |
| CloudUp.CopyFolderUpIdempotent | cloud_up.py:171-184 | copying the same folder twice equals copying it once: no blob and no row the second time |
| CloudUp.CopyFolderUpGrows | cloud_up.py:171-184 | a copy only grows the stores, uploads the whole folder, and adds as many rows as there were fresh files |
| CloudUp.UpScanAreasGrows | cloud_up.py:237-242 | the scan-area loop only grows bucket and PathStorage and sets `files_exist` exactly when some local path exists |
| CloudUp.UpScanAreasRecords | cloud_up.py:237-242 | every row stored is the job's id with one of its pairs whose local folder exists |
| CloudUp.UpScanAreasUploads | cloud_up.py:237-242 | after the loop, every existing folder of the job has all its files in the bucket |
| CloudUp.UpJobSkipped | cloud_up.py:228-245 | a job at or below the cursor, or with no existing local path, changes no store |
| CloudUp.UpJobEffect | cloud_up.py:224-263 | one job leaves the cursor alone, only grows the stores, and stores rows only for its own existing, uploaded pairs |
| CloudUp.UpJobsKeepsCursor | cloud_up.py:223-263 | a run never changes the cursor file |
| CloudUp.UpJobsSkipsSettled | cloud_up.py:223-229 | a run does the same as a run over only the jobs above the cursor |
| CloudUp.UpJobsEffect | cloud_up.py:223-263 | a run never overwrites a blob or row and only appends PathStorage rows for jobs of the run above the cursor |
| CloudUp.RunUp | cloud_up.py:223-263 | the stores end as the job-loop function says, and `aborted` reports an uncaught insert error |
| CloudUp.UpOneJob | cloud_up.py:225-263 | for a job above the cursor, the stores end as the one-job function says (copies and inserts, no cursor write) and `failed` reports an uncaught insert error; the local disk is untouched |
| CloudUp.UpCopyAreas | cloud_up.py:235-242 | walking the zipped path lists copies exactly the existing pairs, in order, and `files_exist` is true iff one existed |

## Left out

- The Tk download UI, the success message box, logging, argparse and config
  reading, and the console `print`s: they are presentation and plumbing.
- `connect_to_mysql`, `connect_to_sqlce`, `list_buckets`, the SQL text,
  commits and closing connections: the stores are values here.
- Windows separators, `os.sep`, drives, absolute right parts and trailing
  separators in `os.path.join`: the separator is '/', and `join` only drops an
  empty left part. An empty right part is not special-cased either.
- Naming.PlainCloudPath: for an empty scan name the model gives
  `job_name//Primary`, where `os.path.join(job_name, "", "Primary")` gives
  `job_name/Primary`.
- Naming.ContinueCloudPath: likewise, for three or more words and an empty
  scan name the model gives `parent//sub`, where Python gives `parent/sub`.
- The operations take any disk. `Migration.Consistent` (every folder a file
  lies below is a directory) is not assumed by them; it is needed only to
  conclude that a folder holding files exists.
- `relpath` normalisation (`..`, `.`, repeated separators): paths below a
  folder are `folder + "/" + rel`.
- The order in which `os.walk` and `list_blobs` visit files: the loops pick
  files in any order, and the results do not depend on it.
- Cloud.DownloadFromCloud: `list_blobs(prefix=cloud_path)` also matches blobs
  such as `cloud_path2/x`, whose `relpath` starts with `../`. Only blobs below
  `cloud_path + "/"` are modelled.
- Cloud.DownloadFromCloud: `os.makedirs` is not modelled; the directory set
  is left as it was.
- Migration.Stores.ReadCursor: the cursor file's contents are an id or absent;
  a malformed file, which would raise `ValueError`, is not modelled.
- Migration.Stores.StorePaths: the PathStorage insert always succeeds. The
  handler in `store_paths` that prints any exception is not modelled.
- Which rows the destination refuses is an input (`Rows.Faults`): the
  constraints themselves (foreign keys, NOT NULL columns) are not modelled.
- Migration.Stores.CopyToCloud: the bucket is updated once per folder from the
  collected blobs, not blob by blob, and an upload error from the storage SDK
  is not modelled.
- Cloud.UploadData: a connection loss or SDK failure during a run
  is not modelled. The only error that ends a run is an uncaught insert error (`faults.fatal`).

## Findings

| source | as written | input that shows it | evidently intended | confidence | as-written member | corrected member |
|---|---|---|---|---|---|---|
| cloud_up.py:181 | `store_paths(mysql_cursor, job_id, local_path, cloud_path)` inside `copy_to_cloud`, where neither `mysql_cursor` nor `job_id` is bound (only `mysql_connection` is declared global, at cloud_up.py:189). The first fresh upload raises NameError, which the handler at cloud_up.py:264 catches, ending the run with no PathStorage row. | an empty bucket and a scan-area folder holding one file `scan.tif` under `Job/ScanX/Primary` (`CloudUp.NameErrorExample`) | one PathStorage row for the job's folder after every fresh upload, and the run continuing | not executed | CloudUp.UploadFilesAsWritten | CloudUp.UploadFilesRecording |

The run is modelled with the corrected member (`CloudUp.CopyToCloud` and
`CloudUp.RunUp`). `CloudUp.NameErrorEndsRun` shows the difference for every
folder with a fresh file.
