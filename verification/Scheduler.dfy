/**
 * The job scheduler of the worker. A run is in flight from its launch until its bookkeeping is cleared, which happens
 * after the job itself has ended; a tick or a start that finds its job's name in flight launches nothing.
 */
module Scheduler {
  import opened Order

  type RunId = nat
  type Timer = nat

  datatype Job = Job(name: string, intervalMs: int, runOnStart: bool)

  /** A launched run; `active` until the job's own promise settles. */
  datatype JobRun = JobRun(name: string, active: bool)

  /** `timers` are the live interval timers of the runtime; `runs` is every run ever launched. */
  datatype State = State(
    handles: seq<Timer>,
    started: bool,
    inFlight: map<string, RunId>,
    timers: map<Timer, Job>,
    nextTimer: Timer,
    runs: seq<JobRun>)

  const Idle: State := State([], false, map[], map[], 0, [])

  function Execute(s: State, job: Job): State {
    if job.name in s.inFlight then s
    else s.(inFlight := s.inFlight[job.name := |s.runs|], runs := s.runs + [JobRun(job.name, true)])
  }

  function SetTimer(s: State, job: Job): State {
    s.(handles := s.handles + [s.nextTimer], timers := s.timers[s.nextTimer := job], nextTimer := s.nextTimer + 1)
  }

  function StartJob(s: State, job: Job): State {
    if job.intervalMs <= 0 then s
    else
      var s' := if job.runOnStart then Execute(s, job) else s;
      SetTimer(s', job)
  }

  function StartJobs(s: State, jobs: seq<Job>): State {
    if jobs == [] then s else StartJob(StartJobs(s, jobs[..|jobs| - 1]), jobs[|jobs| - 1])
  }

  function Start(s: State, jobs: seq<Job>): State {
    if s.started then s else StartJobs(s.(started := true), jobs)
  }

  function Tick(s: State, timer: Timer): State {
    if timer in s.timers then Execute(s, s.timers[timer]) else s
  }

  function End(s: State, run: RunId): State {
    if run < |s.runs| then s.(runs := s.runs[run := s.runs[run].(active := false)]) else s
  }

  predicate IsCleared(s: State, run: RunId) {
    run !in s.inFlight.Values
  }

  /** The `finally` of a run: it comes after the job has ended, and forgets the name. */
  function Clear(s: State, run: RunId): State {
    if run < |s.runs| && !s.runs[run].active && !IsCleared(s, run) then s.(inFlight := s.inFlight - {s.runs[run].name})
    else s
  }

  /** What `stop` does at once, and the runs its promise then waits for. */
  function Stop(s: State): (State, set<RunId>) {
    (s.(started := false, handles := [], timers := s.timers - Elements(s.handles)), s.inFlight.Values)
  }

  datatype Event =
    | Started(jobs: seq<Job>)
    | Ticked(timer: Timer)
    | Ended(run: RunId)
    | Cleared(run: RunId)
    | Stopped

  function Next(s: State, e: Event): State {
    match e
    case Started(jobs) => Start(s, jobs)
    case Ticked(timer) => Tick(s, timer)
    case Ended(run) => End(s, run)
    case Cleared(run) => Clear(s, run)
    case Stopped => Stop(s).0
  }

  function Run(s: State, events: seq<Event>): State
    decreases events
  {
    if events == [] then s else Run(Next(s, events[0]), events[1..])
  }

  // ---- what every event keeps ---------------------------------------------------------------------

  ghost predicate Tracked(s: State, run: RunId)
    requires run < |s.runs|
  {
    s.runs[run].active ==> s.runs[run].name in s.inFlight && s.inFlight[s.runs[run].name] == run
  }

  /** The map is exact: each entry is a launched run of that name, and every active run has its entry. */
  ghost predicate Inv(s: State) {
    && (forall name :: name in s.inFlight ==> s.inFlight[name] < |s.runs| && s.runs[s.inFlight[name]].name == name)
    && (forall run :: 0 <= run < |s.runs| ==> Tracked(s, run))
    && s.timers.Keys <= Elements(s.handles)
    && (forall h :: h in s.handles ==> h < s.nextTimer)
    && (!s.started ==> s.handles == [] && s.timers == map[])
  }

  lemma ExecuteKeeps(s: State, job: Job)
    requires Inv(s)
    ensures Inv(Execute(s, job))
  {
    var s' := Execute(s, job);
    forall run | 0 <= run < |s'.runs| ensures Tracked(s', run) {
      if run < |s.runs| {
        assert Tracked(s, run);
      }
    }
  }

  lemma SetTimerKeeps(s: State, job: Job)
    requires Inv(s) && s.started
    ensures Inv(SetTimer(s, job))
  {
    forall run | 0 <= run < |s.runs| ensures Tracked(SetTimer(s, job), run) {
      assert Tracked(s, run);
    }
  }

  lemma {:induction false} StartJobsKeeps(s: State, jobs: seq<Job>)
    requires Inv(s) && s.started
    ensures Inv(StartJobs(s, jobs)) && StartJobs(s, jobs).started
  {
    if jobs != [] {
      var before, job := StartJobs(s, jobs[..|jobs| - 1]), jobs[|jobs| - 1];
      StartJobsKeeps(s, jobs[..|jobs| - 1]);
      ExecuteKeeps(before, job);
      hide StartJobs;
      SetTimerKeeps(before, job);
      SetTimerKeeps(Execute(before, job), job);
    }
  }

  lemma ClearKeeps(s: State, run: RunId)
    requires Inv(s)
    ensures Inv(Clear(s, run))
  {
    var s' := Clear(s, run);
    if s' != s {
      var name := s.runs[run].name;
      assert exists n :: n in s.inFlight && s.inFlight[n] == run;
      assert s.inFlight[name] == run;
      forall r | 0 <= r < |s'.runs| ensures Tracked(s', r) {
        assert Tracked(s, r);
      }
    }
  }

  lemma StepKeepsInv(s: State, e: Event)
    requires Inv(s)
    ensures Inv(Next(s, e))
  {
    match e {
      case Started(jobs) =>
        if !s.started {
          var s1 := s.(started := true);
          forall run | 0 <= run < |s1.runs| ensures Tracked(s1, run) {
            assert Tracked(s, run);
          }
          StartJobsKeeps(s1, jobs);
        }
      case Ticked(timer) =>
        if timer in s.timers {
          ExecuteKeeps(s, s.timers[timer]);
        }
      case Ended(run) =>
        forall r | 0 <= r < |s.runs| ensures Tracked(End(s, run), r) {
          assert Tracked(s, r);
        }
      case Cleared(run) => ClearKeeps(s, run);
      case Stopped =>
        forall r | 0 <= r < |s.runs| ensures Tracked(Stop(s).0, r) {
          assert Tracked(s, r);
        }
    }
  }

  lemma {:induction false} RunKeepsInv(s: State, events: seq<Event>)
    requires Inv(s)
    ensures Inv(Run(s, events))
    decreases events
  {
    hide Inv, Next;
    if events != [] {
      StepKeepsInv(s, events[0]);
      RunKeepsInv(Next(s, events[0]), events[1..]);
    }
  }

  /** However starts, ticks and stops interleave, no job name has two active runs. */
  lemma OneActiveRunPerName(events: seq<Event>, i: RunId, j: RunId)
    requires var s := Run(Idle, events);
             i < |s.runs| && j < |s.runs| && s.runs[i].active && s.runs[j].active && s.runs[i].name == s.runs[j].name
    ensures i == j
  {
    var s := Run(Idle, events);
    RunKeepsInv(Idle, events);
    assert Tracked(s, i) && Tracked(s, j);
  }

  // ---- starting -----------------------------------------------------------------------------------

  function Enabled(jobs: seq<Job>): seq<Job> {
    if jobs == [] then []
    else Enabled(jobs[..|jobs| - 1]) + (if jobs[|jobs| - 1].intervalMs > 0 then [jobs[|jobs| - 1]] else [])
  }

  /** One new live timer for each of these jobs, in order, and no other. */
  ghost predicate TimersFor(s0: State, s: State, enabled: seq<Job>) {
    && |s.handles| == |enabled| && s.nextTimer == s0.nextTimer + |s.handles|
    && (forall i :: 0 <= i < |s.handles| ==>
          s.handles[i] == s0.nextTimer + i && s.handles[i] in s.timers && s.timers[s.handles[i]] == enabled[i])
    && (forall t :: t in s.timers ==> s0.nextTimer <= t < s.nextTimer)
  }

  ghost predicate IsDueIn(jobs: seq<Job>, name: string) {
    exists i :: 0 <= i < |jobs| && IsDue(jobs[i], name)
  }

  /** Runs in flight go on; each job to run at once whose name is not in flight has one new run, and there is no other. */
  ghost predicate DueOnly(s0: State, s: State, jobs: seq<Job>) {
    && (forall name :: name in s.inFlight <==> name in s0.inFlight || IsDueIn(jobs, name))
    && (forall name :: name in s0.inFlight ==> s.inFlight[name] == s0.inFlight[name])
    && s0.runs <= s.runs
    && (forall run :: |s0.runs| <= run < |s.runs| ==> IsNewRun(s0, s, run))
    && (forall name :: name in s.inFlight && name !in s0.inFlight ==> |s0.runs| <= s.inFlight[name] < |s.runs|)
  }

  predicate IsNewRun(s0: State, s: State, run: RunId)
    requires run < |s.runs|
  {
    var name := s.runs[run].name;
    s.runs[run].active && name !in s0.inFlight && name in s.inFlight && s.inFlight[name] == run
  }

  predicate IsDue(job: Job, name: string) {
    job.intervalMs > 0 && job.runOnStart && job.name == name
  }

  lemma DueAppend(jobs: seq<Job>, job: Job, name: string)
    ensures IsDueIn(jobs + [job], name) <==> IsDueIn(jobs, name) || IsDue(job, name)
  {
    if i :| 0 <= i < |jobs| && IsDue(jobs[i], name) {
      assert (jobs + [job])[i] == jobs[i];
    }
    assert (jobs + [job])[|jobs|] == job;
  }

  lemma SetTimerExtends(s0: State, s: State, enabled: seq<Job>, job: Job)
    requires TimersFor(s0, s, enabled)
    ensures TimersFor(s0, SetTimer(s, job), enabled + [job])
  {
  }

  lemma EnabledAppend(jobs: seq<Job>, job: Job)
    ensures Enabled(jobs + [job]) == if job.intervalMs > 0 then Enabled(jobs) + [job] else Enabled(jobs)
  {
    assert (jobs + [job])[..|jobs|] == jobs;
    assert Enabled(jobs) + [] == Enabled(jobs);
  }

  lemma ExecuteSetsNoTimer(s0: State, s: State, job: Job, enabled: seq<Job>)
    requires TimersFor(s0, s, enabled)
    ensures TimersFor(s0, Execute(s, job), enabled)
  {
    var s' := Execute(s, job);
    assert s'.handles == s.handles && s'.timers == s.timers && s'.nextTimer == s.nextTimer;
    hide Execute;
  }

  lemma OneMoreTimer(s0: State, s: State, jobs: seq<Job>, job: Job)
    requires TimersFor(s0, s, Enabled(jobs))
    ensures TimersFor(s0, StartJob(s, job), Enabled(jobs + [job]))
  {
    hide TimersFor, Enabled, Execute, SetTimer;
    EnabledAppend(jobs, job);
    ExecuteSetsNoTimer(s0, s, job, Enabled(jobs));
    SetTimerExtends(s0, s, Enabled(jobs), job);
    SetTimerExtends(s0, Execute(s, job), Enabled(jobs), job);
  }

  lemma ExecuteRunsOne(s0: State, s: State, job: Job, run: RunId)
    requires |s0.runs| <= run < |Execute(s, job).runs|
    requires forall name :: name in s0.inFlight ==> name in s.inFlight
    requires run < |s.runs| ==> IsNewRun(s0, s, run)
    ensures IsNewRun(s0, Execute(s, job), run)
  {
  }

  lemma OneMoreDue(s0: State, s: State, jobs: seq<Job>, job: Job)
    requires DueOnly(s0, s, jobs)
    ensures DueOnly(s0, StartJob(s, job), jobs + [job])
  {
    var s' := StartJob(s, job);
    forall run | |s0.runs| <= run < |s'.runs| ensures IsNewRun(s0, s', run) {
      assert run < |s.runs| ==> IsNewRun(s0, s, run);
      if job.intervalMs > 0 && job.runOnStart {
        ExecuteRunsOne(s0, s, job, run);
      }
    }
    hide IsNewRun;
    forall name ensures name in s'.inFlight <==> name in s0.inFlight || IsDueIn(jobs + [job], name) {
      DueAppend(jobs, job, name);
    }
    hide IsDueIn;
  }

  /**
   * A start, the first or one after a stop with runs still in flight, gives every enabled job its timer and runs at once
   * exactly the jobs that ask for it and are not in flight.
   */
  lemma StartArms(before: seq<Event>, jobs: seq<Job>)
    requires !Run(Idle, before).started
    ensures var s0 := Run(Idle, before);
            TimersFor(s0, Start(s0, jobs), Enabled(jobs)) && DueOnly(s0, Start(s0, jobs), jobs)
  {
    RunKeepsInv(Idle, before);
    StartJobsArms(Run(Idle, before), jobs);
  }

  lemma {:induction false} StartJobsArms(s0: State, jobs: seq<Job>)
    requires s0.handles == [] && s0.timers == map[]
    ensures var s := StartJobs(s0.(started := true), jobs); TimersFor(s0, s, Enabled(jobs)) && DueOnly(s0, s, jobs)
  {
    if jobs != [] {
      var front, job := jobs[..|jobs| - 1], jobs[|jobs| - 1];
      StartJobsArms(s0, front);
      assert jobs == front + [job];
      hide TimersFor, DueOnly, StartJob;
      OneMoreTimer(s0, StartJobs(s0.(started := true), front), front, job);
      OneMoreDue(s0, StartJobs(s0.(started := true), front), front, job);
    }
  }

  /** A start while started changes nothing. */
  lemma SecondStartIgnored(s: State, jobs: seq<Job>)
    requires s.started
    ensures Next(s, Started(jobs)) == s
  {
  }

  // ---- ticking ------------------------------------------------------------------------------------

  /** One more run, of that name and active, is in flight; all else is as before. */
  ghost predicate LaunchedOne(s: State, s': State, name: string) {
    && s'.runs == s.runs + [JobRun(name, true)] && s'.inFlight == s.inFlight[name := |s.runs|]
    && s'.timers == s.timers && s'.handles == s.handles && s'.nextTimer == s.nextTimer && s'.started == s.started
  }

  /** A live timer's tick launches one run of its job exactly when none is in flight; any other tick changes nothing. */
  lemma TickLaunches(s: State, t: Timer)
    ensures var s' := Next(s, Ticked(t));
            if t in s.timers && s.timers[t].name !in s.inFlight then LaunchedOne(s, s', s.timers[t].name) else s' == s
  {
  }

  /** A run keeps its name in flight until it has ended; after that its bookkeeping frees the name, and that alone. */
  lemma ClearFrees(s: State, name: string)
    requires Inv(s) && name in s.inFlight
    ensures var run := s.inFlight[name];
            && (s.runs[run].active ==> Next(s, Cleared(run)) == s)
            && var s' := Next(Next(s, Ended(run)), Cleared(run));
               && s'.inFlight == s.inFlight - {name} && s'.timers == s.timers && s'.started == s.started
               && s'.runs == s.runs[run := JobRun(name, false)]
  {
    var run := s.inFlight[name];
    assert run in s.inFlight.Values && run in End(s, run).inFlight.Values;
  }

  lemma TimersPersist(s: State, e: Event)
    requires Inv(s) && e != Stopped && s.started
    ensures var s' := Next(s, e); s'.started && s'.timers == s.timers
  {
  }

  lemma {:induction false} TimersLast(s: State, events: seq<Event>)
    requires Inv(s) && s.started && Stopped !in events
    ensures var s' := Run(s, events); Inv(s') && s'.started && s'.timers == s.timers
    decreases events
  {
    hide Inv, Next;
    if events != [] {
      assert events[0] in events && forall e :: e in events[1..] ==> e in events;
      TimersPersist(s, events[0]);
      StepKeepsInv(s, events[0]);
      TimersLast(Next(s, events[0]), events[1..]);
    }
  }

  /** A tick of this timer launches a run of its job unless one is in flight, and once that is over the next one does. */
  ghost predicate Sweeps(s: State, t: Timer, job: Job) {
    && t in s.timers && s.timers[t] == job
    && var ticked := Next(s, Ticked(t));
       && (if job.name in s.inFlight then ticked == s else LaunchedOne(s, ticked, job.name))
       && job.name in ticked.inFlight
       && var run := ticked.inFlight[job.name];
          var idle := Next(Next(ticked, Ended(run)), Cleared(run));
          LaunchedOne(idle, Next(idle, Ticked(t)), job.name)
  }

  lemma LiveTimerSweeps(s: State, t: Timer)
    requires Inv(s) && t in s.timers
    ensures Sweeps(s, t, s.timers[t])
  {
    var name, ticked := s.timers[t].name, Next(s, Ticked(t));
    TickLaunches(s, t);
    StepKeepsInv(s, Ticked(t));
    hide Inv, Next;
    assert name in ticked.inFlight && ticked.timers == s.timers;
    var run := ticked.inFlight[name];
    ClearFrees(ticked, name);
    TickLaunches(Next(Next(ticked, Ended(run)), Cleared(run)), t);
  }

  lemma StartSetsTimers(before: seq<Event>, jobs: seq<Job>, i: nat)
    requires !Run(Idle, before).started && i < |Enabled(jobs)|
    ensures var s0 := Run(Idle, before);
            var s, t := Start(s0, jobs), s0.nextTimer + i;
            Inv(s) && s.started && t in s.timers && s.timers[t] == Enabled(jobs)[i]
  {
    hide Inv, DueOnly, Enabled, TimersFor, Run, Start, Next;
    var s0 := Run(Idle, before);
    IdleInv();
    RunKeepsInv(Idle, before);
    StartArms(before, jobs);
    StartedNow(s0, jobs);
    TimerOf(s0, Start(s0, jobs), Enabled(jobs), i);
  }

  lemma TimerOf(s0: State, s: State, enabled: seq<Job>, i: nat)
    requires TimersFor(s0, s, enabled) && i < |enabled|
    ensures s0.nextTimer + i in s.timers && s.timers[s0.nextTimer + i] == enabled[i]
  {
    assert s.handles[i] == s0.nextTimer + i;
  }

  /**
   * From a start to the next stop, whatever happens in between, every enabled job has its own live timer, and a tick of
   * it launches a run of the job exactly when none is in flight; once that run has ended and is cleared, the next tick
   * does again.
   */
  lemma EveryTickRuns(before: seq<Event>, jobs: seq<Job>, after: seq<Event>, i: nat)
    requires !Run(Idle, before).started && i < |Enabled(jobs)| && Stopped !in after
    ensures var s0 := Run(Idle, before); Sweeps(Run(Start(s0, jobs), after), s0.nextTimer + i, Enabled(jobs)[i])
  {
    hide Inv, Start, Enabled, Sweeps, Run;
    var s0 := Run(Idle, before);
    StartSetsTimers(before, jobs, i);
    TimersLast(Start(s0, jobs), after);
    LiveTimerSweeps(Run(Start(s0, jobs), after), s0.nextTimer + i);
  }

  lemma IdleInv()
    ensures Inv(Idle)
  {
  }

  lemma StartedNow(s: State, jobs: seq<Job>)
    requires Inv(s)
    ensures Start(s, jobs).started && Inv(Start(s, jobs))
  {
    StepKeepsInv(s, Started(jobs));
    if !s.started {
      var s1 := s.(started := true);
      forall run | 0 <= run < |s1.runs| ensures Tracked(s1, run) {
        assert Tracked(s, run);
      }
      StartJobsKeeps(s1, jobs);
    }
  }

  // ---- draining -----------------------------------------------------------------------------------

  /** Nothing can launch: no timer is live. Whatever is still in flight is among the runs waited for. */
  ghost predicate Draining(s: State, launched: nat, waiting: set<RunId>) {
    s.timers == map[] && |s.runs| == launched && s.inFlight.Values <= waiting
  }

  lemma DrainingStep(s: State, e: Event, launched: nat, waiting: set<RunId>)
    requires Draining(s, launched, waiting) && !e.Started?
    ensures Draining(Next(s, e), launched, waiting)
  {
    if e.Cleared? {
      forall x | x in Clear(s, e.run).inFlight.Values ensures x in s.inFlight.Values {
      }
    }
  }

  lemma {:induction false} DrainingRun(s: State, events: seq<Event>, launched: nat, waiting: set<RunId>)
    requires Draining(s, launched, waiting) && forall e :: e in events ==> !e.Started?
    ensures Draining(Run(s, events), launched, waiting)
    decreases events
  {
    hide Draining, Next;
    if events != [] {
      assert events[0] in events;
      DrainingStep(s, events[0], launched, waiting);
      DrainingRun(Next(s, events[0]), events[1..], launched, waiting);
    }
  }

  /**
   * `stop` drains: unless the scheduler is started again, nothing is launched after it, and by the time everything it
   * waits for is cleared no run at all is active.
   */
  lemma StopDrains(before: seq<Event>, after: seq<Event>)
    requires forall e :: e in after ==> !e.Started?
    ensures var (stopped, waiting) := Stop(Run(Idle, before));
            var s := Run(stopped, after);
            && |s.runs| == |stopped.runs| && s.timers == map[]
            && ((forall run :: run in waiting ==> IsCleared(s, run)) ==>
                  s.inFlight == map[] && forall run :: 0 <= run < |s.runs| ==> !s.runs[run].active)
  {
    var (stopped, waiting) := Stop(Run(Idle, before));
    var s := Run(stopped, after);
    RunKeepsInv(Idle, before);
    StepKeepsInv(Run(Idle, before), Stopped);
    RunKeepsInv(stopped, after);
    DrainingRun(stopped, after, |stopped.runs|, waiting);
    if forall run :: run in waiting ==> IsCleared(s, run) {
      NothingActive(s, waiting);
    }
  }

  lemma NoValues(m: map<string, RunId>)
    requires m.Values == {}
    ensures m == map[]
  {
    assert forall name :: name in m.Keys ==> m[name] in m.Values;
    assert m.Keys == {};
  }

  lemma NothingActive(s: State, waiting: set<RunId>)
    requires Inv(s) && s.inFlight.Values <= waiting && forall run :: run in waiting ==> IsCleared(s, run)
    ensures s.inFlight == map[]
    ensures forall run :: 0 <= run < |s.runs| ==> !s.runs[run].active
  {
    assert forall run :: run in s.inFlight.Values ==> IsCleared(s, run);
    assert s.inFlight.Values == {};
    NoValues(s.inFlight);
    forall run | 0 <= run < |s.runs| ensures !s.runs[run].active {
      assert Tracked(s, run);
    }
  }
}
