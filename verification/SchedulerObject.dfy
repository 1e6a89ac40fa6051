/** The scheduler as the object it is: three mutable fields, and methods that loop over jobs and handles. */
module SchedulerObject {
  import opened Order
  import S = Scheduler

  class Scheduler {
    const jobs: seq<S.Job>
    var handles: seq<S.Timer>
    var started: bool
    var inFlight: map<string, S.RunId>
    // The runtime's timers and the launched runs, which the closure's callbacks refer to.
    var timers: map<S.Timer, S.Job>
    var nextTimer: S.Timer
    var runs: seq<S.JobRun>

    constructor (jobs: seq<S.Job>)
      ensures this.jobs == jobs && Contents() == S.Idle
    {
      this.jobs := jobs;
      handles, started, inFlight := [], false, map[];
      timers, nextTimer, runs := map[], 0, [];
    }

    function Contents(): S.State
      reads this
    {
      S.State(handles, started, inFlight, timers, nextTimer, runs)
    }

    /** The synchronous part: up to the first suspension of the job. */
    method Execute(job: S.Job)
      modifies this
      ensures Contents() == S.Execute(old(Contents()), job)
    {
      if job.name in inFlight {
        return;
      }
      var run := |runs|;
      runs := runs + [S.JobRun(job.name, true)];
      inFlight := inFlight[job.name := run];
    }

    method SetTimer(job: S.Job) returns (timer: S.Timer)
      modifies this
      ensures handles == old(handles) && Contents().(handles := handles + [timer]) == S.SetTimer(old(Contents()), job)
    {
      timer := nextTimer;
      timers, nextTimer := timers[timer := job], nextTimer + 1;
    }

    method Start()
      modifies this
      ensures Contents() == S.Start(old(Contents()), jobs)
    {
      if started {
        return;
      }
      started := true;
      ghost var before := Contents();
      var i := 0;
      while i < |jobs|
        invariant 0 <= i <= |jobs|
        invariant Contents() == S.StartJobs(before, jobs[..i])
      {
        var job := jobs[i];
        assert jobs[..i + 1][..i] == jobs[..i];
        if job.intervalMs > 0 {
          if job.runOnStart {
            Execute(job);
          }
          var timer := SetTimer(job);
          handles := handles + [timer];
        }
        i := i + 1;
      }
      assert jobs[..i] == jobs;
    }

    /** Clears every timer; the result is what the returned promise waits for. */
    method Stop() returns (waiting: set<S.RunId>)
      modifies this
      ensures (Contents(), waiting) == S.Stop(old(Contents()))
    {
      started := false;
      var i := 0;
      while i < |handles|
        invariant 0 <= i <= |handles| && Contents() == old(Contents()).(started := false, timers := timers)
        invariant timers == old(timers) - Elements(handles[..i])
      {
        assert Elements(handles[..i + 1]) == Elements(handles[..i]) + {handles[i]};
        timers := timers - {handles[i]};
        i := i + 1;
      }
      assert handles[..i] == handles;
      handles := [];
      waiting := inFlight.Values;
    }

    method OnEnd(run: S.RunId)
      modifies this
      ensures Contents() == S.End(old(Contents()), run)
    {
      if run < |runs| {
        runs := runs[run := runs[run].(active := false)];
      }
    }

    method OnCleared(run: S.RunId)
      modifies this
      ensures Contents() == S.Clear(old(Contents()), run)
    {
      if run < |runs| && !runs[run].active && run in inFlight.Values {
        inFlight := inFlight - {runs[run].name};
      }
    }
  }
}
