/**
  The backup importer: one load job per backup-descriptor object of the source
  bucket, each polled to completion and reported, whatever errors the earlier jobs
  showed. A job that is still short of `Done` when polling gives up makes the
  duration on line 24 raise, which ends the stage there.

  The specification functions describe the first `n` object names of the bucket,
  `names[..n]`, so that one more iteration of the loop is one more unfolding.
*/
module Importer {
  import opened Wrappers
  import opened BackupName
  import opened Jobs
  import opened Cloud

  /** The names among `names[..n]` that the descriptor pattern matches, in bucket order. */
  function Descriptors(names: seq<string>, n: nat): (r: seq<string>)
    requires n <= |names|
    ensures |r| <= n
  {
    if n == 0 then []
    else Descriptors(names, n - 1) + (if TableName(names[n - 1]).Some? then [names[n - 1]] else [])
  }

  /** A name is a descriptor iff it is among the names and the pattern matches it. */
  lemma {:induction false} DescriptorsExact(names: seq<string>, n: nat, name: string)
    requires n <= |names|
    ensures name in Descriptors(names, n) <==> name in names[..n] && TableName(name).Some?
  {
    if n > 0 {
      DescriptorsExact(names, n - 1, name);
      assert names[..n] == names[..n - 1] + [names[n - 1]];
    }
  }

  /** Every descriptor matches the pattern, so it has a table name. */
  lemma DescriptorsMatch(names: seq<string>, n: nat)
    requires n <= |names|
    ensures forall k :: 0 <= k < |Descriptors(names, n)| ==> TableName(Descriptors(names, n)[k]).Some?
  {
    forall k | 0 <= k < |Descriptors(names, n)| ensures TableName(Descriptors(names, n)[k]).Some? {
      DescriptorsExact(names, n, Descriptors(names, n)[k]);
    }
  }

  /** The load job for object `name` of `bucket` into `dataset`, when `name` is a descriptor. */
  function LoadFor(bucket: string, dataset: string, name: string): Option<JobRequest> {
    match TableName(name)
    case Some(table) => Some(Load(TableRef(dataset, table), ObjectUri(bucket, name)))
    case None => None
  }

  /** The load jobs the importer submits for the objects `names[..n]` of `bucket`, in order. */
  function LoadRequests(bucket: string, dataset: string, names: seq<string>, n: nat): (r: seq<JobRequest>)
    requires n <= |names|
    ensures |r| == |Descriptors(names, n)|
  {
    if n == 0 then []
    else LoadRequests(bucket, dataset, names, n - 1) + Listed(LoadFor(bucket, dataset, names[n - 1]))
  }

  /**
    The `k`-th load job loads the `k`-th descriptor object into the table named by
    the pattern's group, in `dataset`.
  */
  lemma {:induction false} LoadRequestsExact(bucket: string, dataset: string, names: seq<string>, n: nat)
    requires n <= |names|
    ensures forall k :: 0 <= k < |Descriptors(names, n)| ==>
              TableName(Descriptors(names, n)[k]).Some? &&
              LoadRequests(bucket, dataset, names, n)[k] ==
                Load(TableRef(dataset, TableName(Descriptors(names, n)[k]).value),
                     ObjectUri(bucket, Descriptors(names, n)[k]))
  {
    DescriptorsMatch(names, n);
    if n > 0 {
      LoadRequestsExact(bucket, dataset, names, n - 1);
    }
  }

  /** The report for object `name`, when it is a descriptor whose load job settled on `outcome`. */
  function ReportFor(name: string, outcome: Snapshot): Option<JobReport> {
    match TableName(name)
    case Some(table) => Some(JobReport(table, outcome))
    case None => None
  }

  /**
    The reports of the load jobs for `names[..n]`, in order; the `j`-th load job
    settled on `outcomes[j]`.
  */
  function ImportReports(names: seq<string>, n: nat, outcomes: seq<Snapshot>): (r: seq<JobReport>)
    requires n <= |names| <= |outcomes|
    ensures |r| == |Descriptors(names, n)|
  {
    if n == 0 then []
    else ImportReports(names, n - 1, outcomes) + Listed(ReportFor(names[n - 1], outcomes[|Descriptors(names, n - 1)|]))
  }

  /**
    The `k`-th report names the `k`-th descriptor's table and holds the snapshot the
    `k`-th load job settled on.
  */
  lemma {:induction false} ImportReportsExact(names: seq<string>, n: nat, outcomes: seq<Snapshot>)
    requires n <= |names| <= |outcomes|
    ensures forall k :: 0 <= k < |Descriptors(names, n)| ==>
              TableName(Descriptors(names, n)[k]) == Some(ImportReports(names, n, outcomes)[k].table) &&
              ImportReports(names, n, outcomes)[k].settled == outcomes[k]
  {
    if n > 0 {
      ImportReportsExact(names, n - 1, outcomes);
      var name := names[n - 1];
      var earlier := Descriptors(names, n - 1);
      match TableName(name)
      case Some(table) =>
        assert Descriptors(names, n) == earlier + [name];
        assert ImportReports(names, n, outcomes) ==
                 ImportReports(names, n - 1, outcomes) + [JobReport(table, outcomes[|earlier|])];
      case None =>
    }
  }

  /**
    Whether line 24 raises at the `k`-th name: it is a descriptor, and its load job,
    the `|Descriptors(names, k)|`-th one, settles short of `Done`.
  */
  predicate Raises(names: seq<string>, k: nat, outcomes: seq<Snapshot>)
    requires k < |names| <= |outcomes|
  {
    TableName(names[k]).Some? && !Ended(outcomes[|Descriptors(names, k)|])
  }

  /**
    The index of the first name of `names[i..]` at which line 24 raises, or `|names|`
    when it raises at none: how far the importer gets from `i` on.
  */
  function ImportStop(names: seq<string>, outcomes: seq<Snapshot>, i: nat): (r: nat)
    requires i <= |names| <= |outcomes|
    ensures i <= r <= |names|
    decreases |names| - i
  {
    if i == |names| then i
    else if Raises(names, i, outcomes) then i
    else ImportStop(names, outcomes, i + 1)
  }

  /** Line 24 raises at none of the names before `ImportStop`, and at the name it stops at. */
  lemma {:induction false} ImportStopExact(names: seq<string>, outcomes: seq<Snapshot>, i: nat)
    requires i <= |names| <= |outcomes|
    ensures forall k :: i <= k < ImportStop(names, outcomes, i) ==> !Raises(names, k, outcomes)
    ensures ImportStop(names, outcomes, i) < |names| ==> Raises(names, ImportStop(names, outcomes, i), outcomes)
    decreases |names| - i
  {
    if i < |names| && !Raises(names, i, outcomes) {
      ImportStopExact(names, outcomes, i + 1);
    }
  }

  /** Every job reported before the importer stops has ended. */
  lemma {:induction false} ReportedJobsEnded(names: seq<string>, n: nat, outcomes: seq<Snapshot>)
    requires n <= |names| <= |outcomes|
    requires forall k :: 0 <= k < n ==> !Raises(names, k, outcomes)
    ensures forall r :: r in ImportReports(names, n, outcomes) ==> Ended(r.settled)
  {
    if n > 0 {
      ReportedJobsEnded(names, n - 1, outcomes);
      assert !Raises(names, n - 1, outcomes);
    }
  }

  /**
    A descriptor whose load job never shows `Done` within the retry budget stops the
    importer at or before it: no later object gets a load job.
  */
  lemma TimedOutImportAborts(names: seq<string>, scripts: seq<Timeline>, base: nat, k: nat, script: Timeline)
    requires k < |names| && TableName(names[k]).Some?
    requires script == ScriptAt(scripts, base + |Descriptors(names, k)|)
    requires forall m :: 0 <= m <= MaxRetries ==> After(script, m).now.state != Done
    ensures ImportStop(names, Outcomes(scripts, base, |names|), 0) <= k
  {
    SettledAfterTimeout(script);
    ImportStopExact(names, Outcomes(scripts, base, |names|), 0);
    assert Raises(names, k, Outcomes(scripts, base, |names|));
  }

  /**
    One iteration of the importer: if `name` matches the descriptor pattern, submit
    its load job into `dataset`, poll it, and report it; otherwise do nothing. The
    job is the `position`-th one submitted through `client`. `ended` is false when
    the job has not ended, so that line 24 raises and nothing is reported.
  */
  method ImportObject(client: Client, bucket: string, dataset: string, name: string, ghost position: nat)
    returns (report: Option<JobReport>, ended: bool)
    requires position == |client.submitted|
    modifies client
    ensures client.submitted == old(client.submitted) + Listed(LoadFor(bucket, dataset, name))
    ensures ended <==> TableName(name).None? || Ended(Settled(ScriptAt(client.scripts, position)))
    ensures report == if ended then ReportFor(name, Settled(ScriptAt(client.scripts, position))) else None
  {
    var table := TableName(name);
    if table.Some? {
      var job := client.Submit(Load(TableRef(dataset, table.value), ObjectUri(bucket, name)));
      var _ := AwaitCompletion(job);
      ended := Ended(job.now);
      report := if ended then Some(JobReport(table.value, job.now)) else None;
    } else {
      report, ended := None, true;
    }
  }

  /**
    `import_to_bigquery`: for every object of `bucket` whose name matches the descriptor
    pattern, submit a load job into `dataset` and poll it; the report of every job is
    returned, errors or not. The first job that has not ended when polling gives up
    ends the stage with that object's name, and no later object gets a load job.
    The loop itself is `ImportEach`, which carries the same three postconditions;
    this method only fixes the ghost `outcomes` and `stop` it is stated against.
  */
  method ImportToWarehouse(bucket: Bucket, client: Client, dataset: Dataset)
    returns (reports: seq<JobReport>, outcome: Outcome<string>)
    modifies client
    ensures var names := Names(bucket.objects);
            var outcomes := Outcomes(client.scripts, |old(client.submitted)|, |names|);
            var stop := ImportStop(names, outcomes, 0);
            && client.submitted ==
                 old(client.submitted) +
                   LoadRequests(bucket.name, dataset.name, names, if stop < |names| then stop + 1 else stop)
            && reports == ImportReports(names, stop, outcomes)
            && outcome == if stop < |names| then Fail(names[stop]) else Pass
  {
    var names := Names(bucket.objects);
    ghost var outcomes := Outcomes(client.scripts, |client.submitted|, |names|);
    ghost var stop := ImportStop(names, outcomes, 0);
    reports, outcome := ImportEach(client, bucket.name, dataset.name, names, outcomes, stop);
  }

  /**
    The loop of `import_to_bigquery` over the object names `names`, up to the first
    name at which line 24 raises.
  */
  method ImportEach(client: Client, bucket: string, dataset: string, names: seq<string>,
                    ghost outcomes: seq<Snapshot>, ghost stop: nat)
    returns (reports: seq<JobReport>, outcome: Outcome<string>)
    requires outcomes == Outcomes(client.scripts, |client.submitted|, |names|)
    requires stop == ImportStop(names, outcomes, 0)
    modifies client
    ensures client.submitted ==
              old(client.submitted) + LoadRequests(bucket, dataset, names, if stop < |names| then stop + 1 else stop)
    ensures reports == ImportReports(names, stop, outcomes)
    ensures outcome == if stop < |names| then Fail(names[stop]) else Pass
  {
    ghost var submitted0 := client.submitted;
    reports := [];
    var i := 0;
    while i < |names|
      invariant 0 <= i <= stop
      invariant client.submitted == submitted0 + LoadRequests(bucket, dataset, names, i)
      invariant reports == ImportReports(names, i, outcomes)
    {
      var ended;
      reports, ended := ImportNext(client, bucket, dataset, names, i, submitted0, outcomes, stop, reports);
      if !ended {
        outcome := Fail(names[i]);
        return;
      }
      i := i + 1;
    }
    outcome := Pass;
  }


  /**
    The `i`-th iteration of the import loop, stated in terms of the loop's invariant:
    the load job for `names[i]`, if it is a descriptor, is appended, and so is its
    report unless line 24 raises.
  */
  method ImportNext(client: Client, bucket: string, dataset: string, names: seq<string>, i: nat,
                    ghost submitted0: seq<JobRequest>, ghost outcomes: seq<Snapshot>, ghost stop: nat,
                    reports: seq<JobReport>)
    returns (reports': seq<JobReport>, ended: bool)
    requires i < |names|
    requires outcomes == Outcomes(client.scripts, |submitted0|, |names|)
    requires stop == ImportStop(names, outcomes, 0) && i <= stop
    requires client.submitted == submitted0 + LoadRequests(bucket, dataset, names, i)
    requires reports == ImportReports(names, i, outcomes)
    modifies client
    ensures client.submitted == submitted0 + LoadRequests(bucket, dataset, names, i + 1)
    ensures ended <==> !Raises(names, i, outcomes)
    ensures if ended then i < stop else i == stop
    ensures reports' == if ended then ImportReports(names, i + 1, outcomes) else reports
  {
    ghost var count := |Descriptors(names, i)|;
    ghost var position := |client.submitted|;
    assert position == |submitted0| + count;
    ImportStopExact(names, outcomes, 0);
    var report;
    report, ended := ImportObject(client, bucket, dataset, names[i], position);
    assert Settled(ScriptAt(client.scripts, position)) == outcomes[count];
    AppendAssoc(submitted0, LoadRequests(bucket, dataset, names, i), Listed(LoadFor(bucket, dataset, names[i])));
    reports' := reports + Listed(report);
  }

  /** Of three names of which the first two match, the first two are the descriptors. */
  lemma TwoDescriptors(first: string, second: string, other: string)
    requires TableName(first).Some? && TableName(second).Some? && TableName(other).None?
    ensures Descriptors([first, second, other], 3) == [first, second]
  {
    var names := [first, second, other];
    assert Descriptors(names, 1) == [first];
    assert Descriptors(names, 2) == [first, second];
  }

  /**
    Of three names of which the first two match, only the first two get load jobs, in
    order. For example, `proj.Users.backup_info`, `proj.Orders.backup_info` and
    `readme.txt` give exactly two load jobs, into `Users` then `Orders`.
  */
  lemma TwoLoadJobs(bucket: string, dataset: string, first: string, second: string, other: string)
    requires TableName(first).Some? && TableName(second).Some? && TableName(other).None?
    ensures LoadRequests(bucket, dataset, [first, second, other], 3)
         == [Load(TableRef(dataset, TableName(first).value), ObjectUri(bucket, first)),
             Load(TableRef(dataset, TableName(second).value), ObjectUri(bucket, second))]
  {
    TwoDescriptors(first, second, other);
    LoadRequestsExact(bucket, dataset, [first, second, other], 3);
  }
}
