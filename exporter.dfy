/**
  The table exporter: one extract job per table of the dataset, each polled to
  completion; a table is deleted when its job reports no errors, and the dataset is
  deleted when no table is left in it afterwards. A job that is still short of `Done`
  when polling gives up makes the duration on line 46 raise, which ends the stage
  there: that table and the later ones stay, and the dataset is not deleted.

  The specification functions describe the first `n` tables, `tables[..n]`, and take
  the snapshots the extract jobs settle on as `outcomes`, the `k`-th job's at index `k`.
*/
module Exporter {
  import opened Wrappers
  import opened Jobs
  import opened Cloud

  /** The extract jobs for `tables[..n]` of `dataset`, into `bucket`, in order. */
  function ExtractRequests(dataset: string, bucket: string, tables: seq<string>, n: nat): (r: seq<JobRequest>)
    requires n <= |tables|
    ensures |r| == n
  {
    if n == 0 then []
    else
      ExtractRequests(dataset, bucket, tables, n - 1) +
        [Extract(TableRef(dataset, tables[n - 1]), ExportUri(bucket, tables[n - 1]))]
  }

  /** The `k`-th extract job exports the `k`-th table to its own URI pattern. */
  lemma {:induction false} ExtractRequestsExact(dataset: string, bucket: string, tables: seq<string>, n: nat)
    requires n <= |tables|
    ensures forall k :: 0 <= k < n ==>
              ExtractRequests(dataset, bucket, tables, n)[k] ==
                Extract(TableRef(dataset, tables[k]), ExportUri(bucket, tables[k]))
  {
    if n > 0 {
      ExtractRequestsExact(dataset, bucket, tables, n - 1);
    }
  }

  /** The reports of the extract jobs for `tables[..n]`, in order. */
  function ExportReports(tables: seq<string>, n: nat, outcomes: seq<Snapshot>): (r: seq<JobReport>)
    requires n <= |tables| && n <= |outcomes|
    ensures |r| == n
  {
    if n == 0 then []
    else ExportReports(tables, n - 1, outcomes) + [JobReport(tables[n - 1], outcomes[n - 1])]
  }

  /** The `k`-th report names the `k`-th table and holds the snapshot its job settled on. */
  lemma {:induction false} ExportReportsExact(tables: seq<string>, n: nat, outcomes: seq<Snapshot>)
    requires n <= |tables| && n <= |outcomes|
    ensures forall k :: 0 <= k < n ==> ExportReports(tables, n, outcomes)[k] == JobReport(tables[k], outcomes[k])
  {
    if n > 0 {
      ExportReportsExact(tables, n - 1, outcomes);
    }
  }

  /** The tables of `tables[..n]` left in place: those whose extract job reported errors, in order. */
  function Kept(tables: seq<string>, n: nat, outcomes: seq<Snapshot>): (r: seq<string>)
    requires n <= |tables| && n <= |outcomes|
    ensures |r| <= n
  {
    if n == 0 then []
    else Kept(tables, n - 1, outcomes) + (if HasErrors(outcomes[n - 1]) then [tables[n - 1]] else [])
  }

  /** Only tables of `tables[..n]` are kept. */
  lemma {:induction false} KeptWithin(tables: seq<string>, n: nat, outcomes: seq<Snapshot>, t: string)
    requires n <= |tables| && n <= |outcomes|
    ensures t in Kept(tables, n, outcomes) ==> t in tables[..n]
  {
    if n > 0 {
      KeptWithin(tables, n - 1, outcomes, t);
      assert tables[..n] == tables[..n - 1] + [tables[n - 1]];
    }
  }

  /** Keeping the `i`-th table moves it from the unvisited part to the kept part. */
  lemma KeptStep(tables: seq<string>, i: nat, outcomes: seq<Snapshot>)
    requires i < |tables| && i < |outcomes| && HasErrors(outcomes[i])
    ensures Kept(tables, i, outcomes) + tables[i..] == Kept(tables, i + 1, outcomes) + tables[i + 1..]
  {
    assert tables[i..] == [tables[i]] + tables[i + 1..];
    AppendAssoc(Kept(tables, i, outcomes), [tables[i]], tables[i + 1..]);
  }

  /** Deleting the `i`-th table drops it from the unvisited part and from nowhere else. */
  lemma DeletedStep(tables: seq<string>, i: nat, outcomes: seq<Snapshot>)
    requires Distinct(tables) && i < |tables| && i < |outcomes| && !HasErrors(outcomes[i])
    ensures Without(Kept(tables, i, outcomes) + tables[i..], tables[i]) ==
              Kept(tables, i + 1, outcomes) + tables[i + 1..]
  {
    var kept := Kept(tables, i, outcomes);
    KeptWithin(tables, i, outcomes, tables[i]);
    assert tables[i] !in tables[..i] by {
      forall j | 0 <= j < i ensures tables[..i][j] != tables[i] { }
    }
    var rest := tables[i + 1..];
    forall j | 0 <= j < |rest| ensures rest[j] != tables[i] {
      assert rest[j] == tables[i + 1 + j];
    }
    assert kept + tables[i..] == kept + [tables[i]] + rest;
    WithoutOnce(kept, tables[i], rest);
  }

  /** With distinct table names, a table is kept iff its own extract job reported errors. */
  lemma {:induction false} KeptExact(tables: seq<string>, n: nat, outcomes: seq<Snapshot>, k: nat)
    requires Distinct(tables) && k < n <= |tables| && n <= |outcomes|
    ensures tables[k] in Kept(tables, n, outcomes) <==> HasErrors(outcomes[k])
  {
    if k < n - 1 {
      KeptExact(tables, n - 1, outcomes, k);
    } else {
      KeptWithin(tables, n - 1, outcomes, tables[k]);
      assert tables[k] !in tables[..n - 1];
    }
  }

  /**
    The index of the first of `outcomes[i..]` that has not ended, or `|outcomes|` when
    all have: how far the exporter gets from `i` on, since line 46 raises there.
  */
  function ExportStop(outcomes: seq<Snapshot>, i: nat): (r: nat)
    requires i <= |outcomes|
    ensures i <= r <= |outcomes|
    decreases |outcomes| - i
  {
    if i == |outcomes| then i
    else if !Ended(outcomes[i]) then i
    else ExportStop(outcomes, i + 1)
  }

  /** Every job before `ExportStop` has ended, and the one it stops at has not. */
  lemma {:induction false} ExportStopExact(outcomes: seq<Snapshot>, i: nat)
    requires i <= |outcomes|
    ensures forall k :: i <= k < ExportStop(outcomes, i) ==> Ended(outcomes[k])
    ensures ExportStop(outcomes, i) < |outcomes| ==> !Ended(outcomes[ExportStop(outcomes, i)])
    decreases |outcomes| - i
  {
    if i < |outcomes| && Ended(outcomes[i]) {
      ExportStopExact(outcomes, i + 1);
    }
  }

  /**
    With distinct table names, after the stage a table is still in the dataset iff the
    stage stopped at or before it, or its own extract job reported errors.
  */
  lemma TableFate(tables: seq<string>, outcomes: seq<Snapshot>, k: nat)
    requires Distinct(tables) && |tables| == |outcomes| && k < |tables|
    ensures var stop := ExportStop(outcomes, 0);
            tables[k] in Kept(tables, stop, outcomes) + tables[stop..] <==> stop <= k || HasErrors(outcomes[k])
  {
    var stop := ExportStop(outcomes, 0);
    if k < stop {
      ExportStopExact(outcomes, 0);
      KeptExact(tables, stop, outcomes, k);
      forall j | 0 <= j < |tables[stop..]| ensures tables[stop..][j] != tables[k] {
        assert tables[stop..][j] == tables[stop + j];
      }
    } else {
      assert tables[k] == tables[stop..][k - stop];
    }
  }

  /**
    `export_from_bigquery_to_storage`: submit and poll one extract job per table,
    delete each table whose job reports no errors, then delete the dataset iff the
    re-read table list is empty. The first job that has not ended when polling gives
    up ends the stage with that table's name, before the dataset is looked at again.
    The loop itself is `ExportEach`; this method fixes the ghost `outcomes` and `stop`
    it is stated against, and runs lines 52-56 when the loop finishes.
  */
  method ExportFromWarehouse(client: Client, dataset: Dataset, destination: Bucket)
    returns (reports: seq<JobReport>, outcome: Outcome<string>)
    requires Distinct(dataset.tables) && dataset.present
    modifies client, dataset
    ensures var tables := old(dataset.tables);
            var outcomes := Outcomes(client.scripts, |old(client.submitted)|, |tables|);
            var stop := ExportStop(outcomes, 0);
            && client.submitted ==
                 old(client.submitted) +
                   ExtractRequests(dataset.name, destination.name, tables, if stop < |tables| then stop + 1 else stop)
            && reports == ExportReports(tables, stop, outcomes)
            && dataset.tables == Kept(tables, stop, outcomes) + tables[stop..]
            && outcome == if stop < |tables| then Fail(tables[stop]) else Pass
    ensures dataset.present <==> dataset.tables != []
  {
    var tables := dataset.tables;
    ghost var outcomes := Outcomes(client.scripts, |client.submitted|, |tables|);
    reports, outcome := ExportEach(client, dataset, destination, tables, outcomes, ExportStop(outcomes, 0));
    if outcome.Pass? {
      DeleteIfEmpty(dataset);
    }
  }

  /**
    The loop of `export_from_bigquery_to_storage` over the tables `tables`, up to the
    first table at which line 46 raises.
  */
  method ExportEach(client: Client, dataset: Dataset, destination: Bucket, tables: seq<string>,
                    ghost outcomes: seq<Snapshot>, ghost stop: nat)
    returns (reports: seq<JobReport>, outcome: Outcome<string>)
    requires Distinct(tables) && dataset.tables == tables && dataset.present
    requires outcomes == Outcomes(client.scripts, |client.submitted|, |tables|)
    requires stop == ExportStop(outcomes, 0)
    modifies client, dataset
    ensures dataset.present
    ensures client.submitted ==
              old(client.submitted) +
                ExtractRequests(dataset.name, destination.name, tables, if stop < |tables| then stop + 1 else stop)
    ensures reports == ExportReports(tables, stop, outcomes)
    ensures dataset.tables == Kept(tables, stop, outcomes) + tables[stop..]
    ensures outcome == if stop < |tables| then Fail(tables[stop]) else Pass
  {
    ghost var submitted0 := client.submitted;
    reports := [];
    var i := 0;
    while i < |tables|
      invariant 0 <= i <= stop
      invariant dataset.present
      invariant dataset.tables == Kept(tables, i, outcomes) + tables[i..]
      invariant client.submitted == submitted0 + ExtractRequests(dataset.name, destination.name, tables, i)
      invariant reports == ExportReports(tables, i, outcomes)
    {
      var ended;
      reports, ended := ExportNext(client, dataset, destination, tables, i, submitted0, outcomes, stop, reports);
      if !ended {
        outcome := Fail(tables[i]);
        return;
      }
      i := i + 1;
    }
    outcome := Pass;
  }


  /**
    The `i`-th iteration of the export loop, stated in terms of the loop's invariant:
    one more extract job submitted; then, unless line 46 raises, one more report and
    the `i`-th table moved to the kept part or deleted.
  */
  method ExportNext(client: Client, dataset: Dataset, destination: Bucket, tables: seq<string>, i: nat,
                    ghost submitted0: seq<JobRequest>, ghost outcomes: seq<Snapshot>, ghost stop: nat,
                    reports: seq<JobReport>)
    returns (reports': seq<JobReport>, ended: bool)
    requires Distinct(tables) && i < |tables|
    requires outcomes == Outcomes(client.scripts, |submitted0|, |tables|)
    requires stop == ExportStop(outcomes, 0) && i <= stop
    requires dataset.tables == Kept(tables, i, outcomes) + tables[i..]
    requires client.submitted == submitted0 + ExtractRequests(dataset.name, destination.name, tables, i)
    requires reports == ExportReports(tables, i, outcomes)
    modifies client, dataset
    ensures dataset.present == old(dataset.present)
    ensures client.submitted == submitted0 + ExtractRequests(dataset.name, destination.name, tables, i + 1)
    ensures ended <==> Ended(outcomes[i])
    ensures if ended then i < stop else i == stop
    ensures ended ==> dataset.tables == Kept(tables, i + 1, outcomes) + tables[i + 1..]
    ensures ended ==> reports' == ExportReports(tables, i + 1, outcomes)
    ensures !ended ==> dataset.tables == old(dataset.tables) && reports' == reports
  {
    ghost var position := |client.submitted|;
    assert position == |submitted0| + i;
    ExportStopExact(outcomes, 0);
    var report;
    report, ended := ExportTable(client, dataset, destination, tables[i], position);
    assert report.settled == outcomes[i];
    AppendAssoc(submitted0, ExtractRequests(dataset.name, destination.name, tables, i),
                [Extract(TableRef(dataset.name, tables[i]), ExportUri(destination.name, tables[i]))]);
    if !ended {
      reports' := reports;
    } else {
      if !HasErrors(report.settled) {
        DeletedStep(tables, i, outcomes);
      } else {
        KeptStep(tables, i, outcomes);
      }
      reports' := reports + [report];
    }
  }

  /**
    One iteration of the export loop: submit the extract job for `table`, poll it,
    and, unless it has not ended (line 46 raises, `ended` is false), delete the table
    iff the settled job reports no errors. The job is the `position`-th one submitted
    through `client`.
  */
  method ExportTable(client: Client, dataset: Dataset, destination: Bucket, table: string, ghost position: nat)
    returns (report: JobReport, ended: bool)
    requires position == |client.submitted|
    modifies client, dataset
    ensures client.submitted ==
              old(client.submitted) + [Extract(TableRef(dataset.name, table), ExportUri(destination.name, table))]
    ensures report == JobReport(table, Settled(ScriptAt(client.scripts, position)))
    ensures ended <==> Ended(report.settled)
    ensures dataset.tables ==
              if ended && !HasErrors(report.settled) then Without(old(dataset.tables), table) else old(dataset.tables)
    ensures dataset.present == old(dataset.present)
  {
    var job := client.Submit(Extract(TableRef(dataset.name, table), ExportUri(destination.name, table)));
    var _ := AwaitCompletion(job);
    ended := Ended(job.now);
    if ended && !HasErrors(job.now) {
      dataset.DeleteTable(table);
    }
    report := JobReport(table, job.now);
  }

  /** Re-read the dataset's table list and delete the dataset iff it is empty. */
  method DeleteIfEmpty(dataset: Dataset)
    requires dataset.present
    modifies dataset
    ensures dataset.tables == old(dataset.tables)
    ensures dataset.present <==> dataset.tables != []
  {
    var remaining := dataset.tables;
    if |remaining| == 0 {
      dataset.Delete();
    }
  }

  /**
    Example: of two tables whose extract jobs both end, the one whose export succeeds
    is deleted and the one whose export fails is kept, so the dataset is not deleted.
  */
  lemma ExampleTwoTables(a: string, b: string, first: Snapshot, second: Snapshot)
    requires Ended(first) && Ended(second) && !HasErrors(first) && HasErrors(second)
    ensures ExportStop([first, second], 0) == 2
    ensures Kept([a, b], 2, [first, second]) == [b]
  {
    assert ExportStop([first, second], 2) == 2;
    assert ExportStop([first, second], 1) == 2;
    assert Kept([a, b], 1, [first, second]) == [];
  }

  /**
    A table whose extract job never shows `Done` within the retry budget stops the
    stage at or before it, whatever errors the job shows: the table is not deleted.
  */
  lemma TimedOutExportAborts(tables: seq<string>, scripts: seq<Timeline>, base: nat, k: nat, script: Timeline)
    requires k < |tables| && script == ScriptAt(scripts, base + k)
    requires forall m :: 0 <= m <= MaxRetries ==> After(script, m).now.state != Done
    ensures var outcomes := Outcomes(scripts, base, |tables|);
            var stop := ExportStop(outcomes, 0);
            stop <= k && tables[k] in Kept(tables, stop, outcomes) + tables[stop..]
  {
    var outcomes := Outcomes(scripts, base, |tables|);
    var stop := ExportStop(outcomes, 0);
    ExportStopExact(outcomes, 0);
    SettledAfterTimeout(script);
    assert !Ended(outcomes[k]);
    assert tables[k] == tables[stop..][k - stop];
  }
}
