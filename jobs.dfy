/**
  Remote jobs and the bounded poller that waits for them.

  A remote job is observed through snapshots of its `state` and `errors`. What the
  service will report on successive `reload()` calls is not under the program's
  control, so it is given up front as a `Timeline`: the snapshot visible now and the
  snapshots that the next reloads reveal, in order. Once the timeline is exhausted a
  reload reveals nothing new.
*/
module Jobs {
  import opened Wrappers

  /** The job lifecycle states the service reports; only `Done` is terminal. */
  datatype JobState = Pending | Running | Done

  /** What one read of `job.state` and `job.errors` returns. */
  datatype Snapshot = Snapshot(state: JobState, errors: Option<seq<string>>)

  /** Python truthiness of `job.errors`: `None` and `[]` are falsy. */
  predicate HasErrors(s: Snapshot) {
    s.errors.Some? && s.errors.value != []
  }

  /**
    Whether the job has ended, so that `job.ended` is set and the duration
    `job.ended - job.started` logged on lines 24 and 46 can be computed. For a job
    short of `Done`, `job.ended` is `None` and that subtraction raises.
  */
  predicate Ended(s: Snapshot) {
    s.state == Done
  }

  /** The snapshot visible now and those the following reloads will reveal. */
  datatype Timeline = Timeline(now: Snapshot, later: seq<Snapshot>)

  /** A job the service never moves out of `Pending`. */
  const Stalled: Timeline := Timeline(Snapshot(Pending, None), [])

  /** The effect of one `job.reload()` on what the job shows. */
  function Reloaded(t: Timeline): Timeline
  {
    if t.later == [] then t else Timeline(t.later[0], t.later[1..])
  }

  /**
    What the job shows after `n` reloads: the `n`-th scripted snapshot, or the last one
    once the script is used up.
  */
  function After(t: Timeline, n: nat): (r: Timeline)
    ensures n == 0 ==> r == t
  {
    if n == 0 || t.later == [] then t
    else if n >= |t.later| then Timeline(t.later[|t.later| - 1], [])
    else Timeline(t.later[n - 1], t.later[n..])
  }

  /** One more reload is one reload followed by the others. */
  lemma AfterReloaded(t: Timeline, n: nat)
    ensures After(t, n + 1) == After(Reloaded(t), n)
  {
  }

  /** `After` on `t` and on `Reloaded(t)` differ by one reload, for every count. */
  lemma AfterShift(t: Timeline)
    ensures forall n: nat :: n > 0 ==> After(t, n) == After(Reloaded(t), n - 1)
  {
  }

  /** The retry budget of both polling loops (`retry_count = 100`). */
  const MaxRetries: nat := 100

  /** Where a polling loop stops and how many reloads it issued. */
  datatype PollResult = PollResult(final: Timeline, reloads: nat)

  /**
    The polling loop as a function of the job's timeline: while budget is left and the
    state is not `Done`, spend one unit of budget and reload. Once the script is used up
    a reload changes nothing, so the rest of the budget is spent on the same snapshot.
  */
  function Poll(t: Timeline, budget: nat): (r: PollResult)
    decreases |t.later|
    ensures r.reloads <= budget
    ensures r.final == After(t, r.reloads)
    ensures forall m :: 0 <= m < r.reloads ==> After(t, m).now.state != Done
    ensures r.final.now.state != Done ==> r.reloads == budget
  {
    if budget == 0 || t.now.state == Done then PollResult(t, 0)
    else if t.later == [] then PollResult(t, budget)
    else
      var rest := Poll(Reloaded(t), budget - 1);
      AfterShift(t);
      PollResult(rest.final, rest.reloads + 1)
  }

  /** One iteration of the loop: with budget left and no `Done` yet, reload and go on. */
  lemma PollStep(t: Timeline, budget: nat)
    requires budget > 0 && t.now.state != Done
    ensures Poll(t, budget) ==
              PollResult(Poll(Reloaded(t), budget - 1).final, Poll(Reloaded(t), budget - 1).reloads + 1)
  {
  }

  /** A loop that is out of budget, or sees `Done`, stops at once: no sleep, no reload. */
  lemma PollStops(t: Timeline, budget: nat)
    requires budget == 0 || t.now.state == Done
    ensures Poll(t, budget) == PollResult(t, 0)
  {
  }

  /**
    A job that first shows `Done` after exactly `k <= budget` reloads is reloaded
    exactly `k` times and is left showing that snapshot; this follows from the
    contract of `Poll`.
  */
  lemma PollReachesDone(t: Timeline, budget: nat, k: nat)
    requires k <= budget
    requires After(t, k).now.state == Done
    requires forall m :: 0 <= m < k ==> After(t, m).now.state != Done
    ensures Poll(t, budget) == PollResult(After(t, k), k)
  {
  }

  /**
    A job that shows `Done` after none of the first `budget` reloads (nor before them)
    is reloaded exactly `budget` times and is left in a state other than `Done`; this
    follows from the contract of `Poll`.
  */
  lemma PollTimesOut(t: Timeline, budget: nat)
    requires forall m :: 0 <= m <= budget ==> After(t, m).now.state != Done
    ensures Poll(t, budget) == PollResult(After(t, budget), budget)
    ensures Poll(t, budget).final.now.state != Done
  {
  }

  /** What the polling loop leaves visible for a job that follows `t`. */
  function Settled(t: Timeline): Snapshot
  {
    Poll(t, MaxRetries).final.now
  }

  /**
    A job that never shows `Done` within the retry budget settles on the snapshot
    after 100 reloads: a state other than `Done`, with whatever errors it shows then.
  */
  lemma SettledAfterTimeout(t: Timeline)
    requires forall m :: 0 <= m <= MaxRetries ==> After(t, m).now.state != Done
    ensures Settled(t) == After(t, MaxRetries).now && Settled(t).state != Done
  {
    PollTimesOut(t, MaxRetries);
  }

  /** What a stage logs about one job: its table, and the state and errors it settled on. */
  datatype JobReport = JobReport(table: string, settled: Snapshot)

  /**
    A submitted job, as the client library exposes it: `state` and `errors` are the
    current snapshot, `reload()` moves along the timeline, and `reloads` counts the
    reload calls made on this job.
  */
  class Job {
    var now: Snapshot
    var later: seq<Snapshot>
    var reloads: nat

    /** The job's observable behaviour from here on. */
    function View(): Timeline
      reads this
    {
      Timeline(now, later)
    }

    constructor (script: Timeline)
      ensures View() == script && reloads == 0
    {
      now := script.now;
      later := script.later;
      reloads := 0;
    }

    /** `job.reload()`: fetch the next snapshot from the service. */
    method Reload()
      modifies this
      ensures View() == Reloaded(old(View()))
      ensures reloads == old(reloads) + 1
    {
      if later != [] {
        now := later[0];
        later := later[1..];
      }
      reloads := reloads + 1;
    }
  }

  /**
    The polling loop written inline in both the importer and the exporter. It returns
    the final `retry_count`. `time.sleep(10)` between checks is a no-op here.
  */
  method AwaitCompletion(job: Job) returns (retryCount: nat)
    modifies job
    ensures retryCount <= MaxRetries
    ensures job.View() == Poll(old(job.View()), MaxRetries).final
    ensures job.reloads == old(job.reloads) + Poll(old(job.View()), MaxRetries).reloads
    ensures Poll(old(job.View()), MaxRetries).reloads == MaxRetries - retryCount
    ensures retryCount > 0 ==> job.now.state == Done
  {
    retryCount := MaxRetries;
    while retryCount > 0 && job.now.state != Done
      invariant retryCount <= MaxRetries
      invariant Poll(job.View(), retryCount).final == Poll(old(job.View()), MaxRetries).final
      invariant Poll(old(job.View()), MaxRetries).reloads
                == (MaxRetries - retryCount) + Poll(job.View(), retryCount).reloads
      invariant job.reloads == old(job.reloads) + (MaxRetries - retryCount)
      decreases retryCount
    {
      PollStep(job.View(), retryCount);
      retryCount := retryCount - 1;
      job.Reload();
    }
  }
}
