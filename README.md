# download-backups, modelled in Dafny

`download-backups.py` drains a Datastore backup into local files in three stages.

1. `import_to_bigquery` loads every backup-descriptor object of a storage bucket into a BigQuery dataset.
2. `export_from_bigquery_to_storage` extracts every table of that dataset into a second bucket as gzipped JSON. It deletes each table whose export succeeded, and then deletes the dataset if no table is left.
3. `download_backup_from_storage` writes every object of the export bucket to a local file of the same name, deleting each object once its download has returned.

The importer and the exporter wait for their remote jobs with the same bounded polling loop: at most 100 reloads, stopping early at `DONE`. Both then log the job's duration, `job.ended - job.started` (lines 24 and 46). A job that has not reached `DONE` has no `ended` time, so that subtraction raises and ends the stage.

This project models that control logic against in-memory stand-ins for the services:

- `BackupName` derives the table name a descriptor object loads into. It is a hand-written matcher for `re.match("\S+\.(\S*)\.backup_info", name)`: anchored at the start only, greedy `\S+` with backtracking, then greedy `\S*`. It is specified by the set of decompositions `P + "." + G + ".backup_info" + rest` and the order Python's backtracking tries them in.
- `Jobs` holds the rest of the job machinery:
  - a remote job is a `Job` object whose `Reload` moves along a `Timeline` of snapshots (`state`, `errors`) that the service reveals;
  - `Poll` is the polling loop as a function of that timeline;
  - `AwaitCompletion` is the loop itself, proved against `Poll`.
- `Cloud` holds the services:
  - buckets of named objects, and a local disk whose writes may raise;
  - a dataset of tables;
  - a warehouse `Client` that records every job submitted. The `j`-th job submitted behaves as `scripts[j]`.
- `Importer`, `Exporter` and `Downloader` are the three stages. Each is an imperative loop over a snapshot of the listing, proved against specification functions over prefixes of that listing:
  - the jobs submitted;
  - the reports logged;
  - the tables kept;
  - the files written and the objects left in the bucket.

  Lemmas characterise each of these element by element.

Python truthiness of `job.errors` is `HasErrors`: `None` and `[]` are falsy. `time.sleep(10)` is a no-op. What a job logs is kept as a `JobReport`: its table and the snapshot it settled on. A stage that an exception ends returns `Fail(name)`, naming the object or table it was at; a stage that finishes returns `Pass`.

What happens to a job that exhausts its budget without reaching `DONE`:

- Neither stage has a timeout branch; the only test after polling is `if job.errors` (lines 25 and 47).
- The duration on lines 24 and 46 comes first, and for such a job it raises (`Jobs.Ended` is false).
- So the importer stops at that object: no later object gets a load job (`Importer.TimedOutImportAborts`).
- The exporter stops at that table: it is not deleted, whatever its errors; no later table is exported; and the dataset is not re-read or deleted (`Exporter.TimedOutExportAborts`).

Likewise, the downloader has no handler, so a download that raises ends the stage: `DownloadFromStorage` returns `Fail(name)` for the first object whose download raises. That object and every later one stay in the bucket.

## Model

| member | source | states |
|---|---|---|
| BackupName.IsSpace | download-backups.py:8 | the characters `\s` matches: those for which Python 3's `str.isspace()` holds |
| BackupName.NoSpace | download-backups.py:8 | the string contains no `\s` character, so `\S*` matches all of it |
| BackupName.IsSplit | download-backups.py:8 | `(dot, end)` is one way the pattern matches: non-empty whitespace-free `P` before `dot`, the `.`, whitespace-free `G` up to `end`, then `.backup_info` |
| BackupName.Greatest | download-backups.py:8 | `(dot, end)` is not beaten by any split with a `dot` up to `maxDot` in backtracking order: larger `dot` first, then larger `end` |
| BackupName.LongestGroup | download-backups.py:8 | greedy `\S*`: returns the largest group end at or below `hi` that completes a match for this `P`, or none if no end does |
| BackupName.SearchSplit | download-backups.py:8 | backtracking `\S+`: the split it returns is a match with `P` ending at or before `maxDot`, and no such match comes later in Python's order; none means no match ends `P` there |
| BackupName.LongestSplit | download-backups.py:8 | the match Python's backtracking finds first (longest `P`, then longest `G`); none iff the name has no match |
| BackupName.TableName | download-backups.py:8-10 | `m.group(1)`: whitespace-free, and shorter than the name by at least `.` plus `.backup_info` |
| BackupName.TableNameSpec | download-backups.py:8-10 | the name matches iff it has a decomposition `P.G.backup_info…`; the table name is then the group of the greatest decomposition in backtracking order |
| BackupName.SplitIsDecomposition | download-backups.py:8 | every match splits the name as `P + "." + G + ".backup_info" + rest`, with `P` non-empty and `P` and `G` whitespace-free |
| BackupName.DecompositionIsSplit | download-backups.py:8 | conversely, any such decomposition is a match, so the name is accepted (the pattern is not anchored at the end) |
| BackupName.TableNameOfDescriptor | download-backups.py:8-10 | `P.G.backup_info` with a dot-free `G` yields exactly `G`, whatever dots `P` contains |
| BackupName.ExampleDescriptor | download-backups.py:8-10 | `proj.Users.backup_info` yields `Users` |
| BackupName.ExampleLongestPrefix | download-backups.py:8-10 | `a.b.c.backup_info` yields `c` |
| BackupName.ExampleNoMatch | download-backups.py:8-9 | `readme.txt` does not match, so no job is submitted for it |
| Jobs.Ended | download-backups.py:24 | the duration on lines 24 and 46 can be computed iff the job is in `DONE` |
| Jobs.HasErrors | download-backups.py:25 | the truth value of `job.errors`: false for `None` and for an empty list, true for any non-empty list |
| Jobs.Reloaded | download-backups.py:23 | one `job.reload()` reveals the next scripted snapshot, or changes nothing once the script is used up |
| Jobs.After | download-backups.py:23 | what the job shows after `n` reloads; no reload leaves it as it is |
| Jobs.AfterReloaded | download-backups.py:23 | `n + 1` reloads are one reload followed by `n` more |
| Jobs.Poll | download-backups.py:19-23 | the loop issues at most `budget` reloads; it ends on the snapshot after that many reloads; it saw no `DONE` before the last; if it ends short of `DONE` it used the whole budget |
| Jobs.PollStep | download-backups.py:20-23 | with budget left and no `DONE` yet, the loop reloads once and continues with one unit less |
| Jobs.PollStops | download-backups.py:20 | if the state is already `DONE` or the budget is 0, there is no sleep and no reload |
| Jobs.PollReachesDone | download-backups.py:19-23 | a job first showing `DONE` after exactly `k <= budget` reloads is reloaded exactly `k` times and left on that snapshot |
| Jobs.PollTimesOut | download-backups.py:19-23 | a job that never shows `DONE` within the budget is reloaded exactly `budget` times and left in a state other than `DONE` |
| Jobs.Settled | download-backups.py:19-23 | the snapshot a job is left on when the loop with budget 100 stops |
| Jobs.SettledAfterTimeout | download-backups.py:19-24 | a job that never shows `DONE` within 100 reloads settles on the snapshot after the 100th reload, in a state other than `DONE` |
| Jobs.Job.constructor | download-backups.py:17 | a begun job shows the first snapshot of its timeline and has not been reloaded |
| Jobs.Job.Reload | download-backups.py:23 | `job.reload()` reveals the next snapshot (or the same one once the script is used up) and counts one reload |
| Jobs.AwaitCompletion | download-backups.py:19-23 | `retry_count` starts at 100, drops by one per reload and stays in `0..100`; the job ends where `Poll` with budget 100 ends, after exactly `Poll`'s reload count; a positive final count means `DONE` |
| Cloud.Without | download-backups.py:51 | the table list after `table.delete()`: the table is gone, and every other table is still there |
| Cloud.WithoutOnce | download-backups.py:51 | deleting a table that occurs once leaves the tables before it and after it, in order |
| Cloud.WithoutAbsent | download-backups.py:51 | deleting a table that is not listed changes nothing |
| Cloud.Names | download-backups.py:7 | the names `list_blobs()` yields, one per object, in order |
| Cloud.WithoutNamed | download-backups.py:65 | the bucket after `blob.delete()`: exactly the objects not carrying that name remain |
| Cloud.WithoutNamedHead | download-backups.py:61-65 | with distinct names, deleting the current object of the listing leaves exactly the objects after it |
| Cloud.WithoutNamedNone | download-backups.py:65 | deleting a name no object carries changes nothing |
| Cloud.ObjectUri | download-backups.py:15 | the load job's source URI `gs://<bucket>/<object>` |
| Cloud.ExportUri | download-backups.py:36 | the extract job's destination pattern `gs://<bucket>/<table>-*.json.gz` |
| Cloud.Bucket.constructor | download-backups.py:7 | a bucket holds the given objects |
| Cloud.Bucket.Delete | download-backups.py:65 | `blob.delete()` removes the object of that name and nothing else |
| Cloud.LocalDisk.constructor | download-backups.py:63 | the disk holds the given files |
| Cloud.LocalDisk.DownloadToFilename | download-backups.py:63 | `download_to_filename(path)` stores the object's bytes at `path` and leaves every other file alone; a raising write may leave anything at `path`, and leaves every other file alone |
| Cloud.Dataset.constructor | download-backups.py:32 | a dataset exists and lists the given tables |
| Cloud.Dataset.DeleteTable | download-backups.py:51 | `table.delete()` drops that table from the listing and leaves the dataset in place |
| Cloud.Dataset.Delete | download-backups.py:54 | `dataset.delete()` removes the dataset |
| Cloud.Outcomes | download-backups.py:17-23 | the `k`-th of `n` jobs submitted from position `base` on settles on the `k`-th element, one element per job |
| Cloud.Client.constructor | download-backups.py:13 | a fresh client has submitted nothing |
| Cloud.Client.Submit | download-backups.py:13-17 | submitting a job appends it to the submitted jobs; the new job behaves as the script for its submission position and has not been reloaded |
| Importer.Descriptors | download-backups.py:7-9 | the names of the first `n` objects that match, in bucket order; there are at most `n` of them (membership is `DescriptorsExact`) |
| Importer.DescriptorsExact | download-backups.py:7-9 | an object is a descriptor iff it is listed and its name matches the pattern |
| Importer.DescriptorsMatch | download-backups.py:8-10 | every descriptor has a table name |
| Importer.LoadFor | download-backups.py:8-15 | the load job of one object: into the table named by the pattern's group, from `gs://<bucket>/<object>`; none for a non-matching name |
| Importer.LoadRequests | download-backups.py:7-15 | exactly one load job per descriptor object |
| Importer.LoadRequestsExact | download-backups.py:13-15 | the `k`-th load job targets `dataset.table(G)` of the `k`-th descriptor, from `gs://<bucket>/<object>` |
| Importer.ReportFor | download-backups.py:24-28 | what is logged for one object: its table and settled snapshot if it is a descriptor, nothing otherwise |
| Importer.ImportReports | download-backups.py:7-28 | one report per descriptor, whatever the jobs' errors: an erroring job does not stop the loop |
| Importer.ImportReportsExact | download-backups.py:24-28 | the `k`-th report names the `k`-th descriptor's table and holds the snapshot the `k`-th load job settled on |
| Importer.ImportObject | download-backups.py:8-28 | a matching object gets one load job, polled, and reported unless line 24 raises because the job has not ended; a non-matching object submits nothing, reports nothing and raises nothing |
| Importer.ImportNext | download-backups.py:7-28 | one iteration extends the submitted jobs by this object's load job; it raises exactly when `Raises` holds, which happens exactly at `ImportStop`; otherwise it extends the reports by this object's report |
| Importer.Raises | download-backups.py:24 | line 24 raises at this object iff it is a descriptor whose load job settled short of `DONE` |
| Importer.ImportStop | download-backups.py:7-24 | how far the importer gets: an index between the start and the end of the listing |
| Importer.ImportStopExact | download-backups.py:7-24 | line 24 raises at no object before `ImportStop`, and at the object it stops at, if any |
| Importer.ReportedJobsEnded | download-backups.py:24-28 | every job that is reported before the importer stops has reached `DONE` |
| Importer.TimedOutImportAborts | download-backups.py:19-24 | a descriptor whose load job never shows `DONE` within 100 reloads stops the importer at or before that object |
| Importer.ImportToWarehouse | download-backups.py:6-28 | the jobs submitted are exactly the load jobs of the descriptors up to and including the one where line 24 raises, in bucket order; the reports are those of every job before it, each settled on its own script; the stage fails with that object's name, or passes |
| Importer.ImportEach | download-backups.py:7-28 | the loop over the listed names, stated in terms of `ImportStop`: the same jobs, reports and result as `ImportToWarehouse` |
| Importer.TwoDescriptors | download-backups.py:7-10 | of three objects of which the first two match, exactly the first two are descriptors, in order |
| Importer.TwoLoadJobs | download-backups.py:7-15 | those three objects give exactly two load jobs, into the first and then the second table |
| Exporter.ExtractRequests | download-backups.py:32-36 | exactly one extract job per table |
| Exporter.ExtractRequestsExact | download-backups.py:34-36 | the `k`-th extract job reads the `k`-th table into `gs://<bucket>/<table>-*.json.gz` |
| Exporter.ExportReports | download-backups.py:32-48 | one report per table |
| Exporter.ExportReportsExact | download-backups.py:46-48 | the `k`-th report names the `k`-th table and holds the snapshot its job settled on |
| Exporter.Kept | download-backups.py:47-51 | the tables of the first `n` whose job reported errors, in order; there are at most `n` of them (which ones is `KeptWithin` and `KeptExact`) |
| Exporter.KeptWithin | download-backups.py:32 | only listed tables are left |
| Exporter.KeptStep | download-backups.py:47-48 | a table whose job reported errors is kept, and nothing else changes |
| Exporter.DeletedStep | download-backups.py:49-51 | a table whose job reported no errors is deleted, and no other table is touched |
| Exporter.KeptExact | download-backups.py:47-51 | a table survives iff its own extract job reported errors |
| Exporter.ExportStop | download-backups.py:32-46 | how far the exporter gets: an index between the start and the end of the listing |
| Exporter.ExportStopExact | download-backups.py:32-46 | every extract job before `ExportStop` has reached `DONE`, and the one it stops at has not |
| Exporter.TableFate | download-backups.py:32-51 | with distinct names, a table is still in the dataset after the stage iff the stage stopped at or before it, or its own job reported errors |
| Exporter.ExportFromWarehouse | download-backups.py:31-56 | one extract job per table, in listing order, up to and including the first whose job has not ended; before it, a table remains iff its job reported errors; from it on, every table remains; the stage fails with that table's name, or passes; the dataset remains iff a table remains |
| Exporter.ExportEach | download-backups.py:32-51 | the loop over the listed tables, stated in terms of `ExportStop`: the same jobs, reports, tables and result as `ExportFromWarehouse`, with the dataset still present |
| Exporter.ExportNext | download-backups.py:32-51 | one iteration submits this table's extract job; it raises exactly when the job has not ended, which happens exactly at `ExportStop`; otherwise it reports the job and deletes or keeps this table by its errors |
| Exporter.ExportTable | download-backups.py:34-51 | the table's extract job is submitted and polled; line 46 raises iff the settled job has not ended; the table is deleted iff the job ended and shows no errors; the dataset is not deleted |
| Exporter.DeleteIfEmpty | download-backups.py:52-56 | the dataset is deleted iff the re-read table list is empty; the tables are unchanged |
| Exporter.ExampleTwoTables | download-backups.py:42-56 | of two tables whose jobs both end, one succeeding and one failing, the stage runs to the end and only the failed one remains |
| Exporter.TimedOutExportAborts | download-backups.py:41-51 | a table whose job never reaches `DONE` in 100 reloads stops the exporter at or before it, and it remains in the dataset whatever its errors |
| Downloader.FirstFailing | download-backups.py:61-63 | how far the loop gets: the first object whose download raises, or the end; every object before it downloads |
| Downloader.Written | download-backups.py:61-63 | the local files after the first `n` objects are written over them, in order |
| Downloader.WrittenExact | download-backups.py:63 | with distinct names, each downloaded object is in the local file of its own name with its bytes, and every other path is unchanged |
| Downloader.DownloadFromStorage | download-backups.py:60-65 | objects are downloaded and deleted in order, up to the first that fails; the bucket keeps exactly that object and the ones after it; the disk holds the downloaded ones, and every path except the failing object's is otherwise unchanged; the stage fails with that object's name, or passes |
| Downloader.NothingLost | download-backups.py:61-65 | after the stage every object is still in the bucket or in the local file of its name, with its bytes |
| Downloader.DeletedIffDownloaded | download-backups.py:61-65 | an object is gone from the bucket iff its download returned |
| Downloader.AllDownloaded | download-backups.py:61-65 | when no download raises, every object is downloaded, so the bucket ends empty and the stage passes |

## Left out

- The `__main__` block (lines 68-109): logging setup, client construction, fixed project, bucket and dataset names, and the bucket and dataset existence checks. The check on line 98 tests `backup_bucket` again where `export_bucket` is evidently meant; it is not part of this model.
- The Google Cloud SDK is not modelled. Listing, job submission, `begin`, `reload`, deletion and download are the in-memory stand-ins in `Cloud` and `Jobs`. What the service reports is a parameter: one `Timeline` per submitted job, and a set of local paths whose write raises.
- Failures of the service calls: the stand-ins for `list_blobs`, `list_tables`, job submission, `begin`, `reload`, `table.delete`, `dataset.delete` and `blob.delete` never raise. In this model only `download_to_filename` (line 63) and the duration on lines 24 and 46 can end a stage, and every `Pass`/`Fail` postcondition rests on that.
- Downloader.NothingLost: local path resolution is not modelled. A file is keyed by the object's name string, so the property assumes distinct object names resolve to distinct files. Names such as `a` and `./a`, `d/x` and `d//x`, or `A` and `a` on a case-insensitive volume are one file, so a later download would overwrite the file of an object already deleted from the bucket.
- Downloader.WrittenExact: likewise assumes distinct object names are distinct local files.
- `time.sleep(10)` and `time.strftime` job names: clock-dependent. The sleep is a no-op, and job names are not modelled.
- All logging, including `job.output_rows`: output only.
- The value of the duration `job.ended - job.started` (lines 24 and 46): only whether it raises is modelled. It raises exactly when the job is not in `DONE`; a job in `DONE` is taken to carry both times.
- Job configuration (`source_format`, `destination_format`, `compression`): opaque settings with no effect on the control flow.
- Load jobs creating tables in the dataset: the importer's dataset is only named in the load requests.
- Extract jobs writing `<table>-*.json.gz` objects into the destination bucket: `ExportFromWarehouse` only names that bucket in the extract requests and leaves its objects untouched.
- Listings are taken once at the start of each loop. Changes to the bucket or the dataset during iteration are not reflected in the iteration.
- Python 2, where `\s` on a byte string is ASCII whitespace only: `IsSpace` is Python 3's `str.isspace()`.
