/** The worker: the scheduler composed with the two shutdown steps, stop the scheduler and then close the pool. */
module Worker {
  import S = Scheduler
  import C = Shutdown
  import Order

  const STEPS: nat := 2
  const STOP_SCHEDULER: nat := 0
  const CLOSE_POOL: nat := 1

  /** `waiting` are the runs the scheduler's `stop` waits for. */
  datatype State = State(scheduler: S.State, shutdown: C.State, waiting: set<S.RunId>)

  datatype Event =
    | Ticked(timer: S.Timer)
    | Ended(run: S.RunId)
    | Cleared(run: S.RunId)
    | Signal
    | StopResolves
    | PoolCloses(ok: bool)
    | Deadline

  /** The scheduler is started before the signal handlers are installed. */
  function Boot(jobs: seq<S.Job>): State {
    State(S.Start(S.Idle, jobs), C.Initial, {})
  }

  predicate Running(s: State, step: nat) {
    C.Awaiting(s.shutdown) && |s.shutdown.settled| == step
  }

  function Next(s: State, e: Event): State {
    match e
    case Ticked(timer) => s.(scheduler := S.Next(s.scheduler, S.Ticked(timer)))
    case Ended(run) => s.(scheduler := S.Next(s.scheduler, S.Ended(run)))
    case Cleared(run) => s.(scheduler := S.Next(s.scheduler, S.Cleared(run)))
    case Signal =>
      if s.shutdown.shuttingDown then s
      else
        var (stopped, waiting) := S.Stop(s.scheduler);
        State(stopped, C.Next(s.shutdown, STEPS, C.Signal), waiting)
    case StopResolves =>
      if Running(s, STOP_SCHEDULER) && (forall run :: run in s.waiting ==> S.IsCleared(s.scheduler, run))
      then s.(shutdown := C.Next(s.shutdown, STEPS, C.Settle(true))) else s
    case PoolCloses(ok) =>
      if Running(s, CLOSE_POOL) then s.(shutdown := C.Next(s.shutdown, STEPS, C.Settle(ok))) else s
    case Deadline => s.(shutdown := C.Next(s.shutdown, STEPS, C.Deadline))
  }

  function Run(s: State, events: seq<Event>): State
    decreases events
  {
    if events == [] then s else Run(Next(s, events[0]), events[1..])
  }

  predicate NothingActive(s: S.State) {
    s.inFlight == map[] && forall run :: 0 <= run < |s.runs| ==> !s.runs[run].active
  }

  predicate PoolCloseBegun(s: State) {
    CLOSE_POOL in s.shutdown.begun
  }

  ghost predicate Inv(s: State) {
    && S.Inv(s.scheduler) && C.Inv(s.shutdown, STEPS)
    && (s.shutdown.shuttingDown ==> S.Draining(s.scheduler, |s.scheduler.runs|, s.waiting))
    && (|s.shutdown.begun| == 2 ==> NothingActive(s.scheduler))
  }

  lemma BootInv(jobs: seq<S.Job>)
    ensures Inv(Boot(jobs))
  {
    S.StepKeepsInv(S.Idle, S.Started(jobs));
  }

  lemma SchedulerStepKeeps(s: State, e: S.Event)
    requires Inv(s) && !e.Started? && !e.Stopped?
    ensures Inv(s.(scheduler := S.Next(s.scheduler, e)))
  {
    S.StepKeepsInv(s.scheduler, e);
    if s.shutdown.shuttingDown {
      S.DrainingStep(s.scheduler, e, |s.scheduler.runs|, s.waiting);
    }
    hide S.Inv, C.Inv;
  }

  lemma SignalKeeps(s: State)
    requires Inv(s)
    ensures Inv(Next(s, Signal))
  {
    S.StepKeepsInv(s.scheduler, S.Stopped);
    C.StepKeepsInv(s.shutdown, STEPS, C.Signal);
    hide S.Inv;
    if !s.shutdown.shuttingDown {
      StopDrainsTimers(s.scheduler);
    }
  }

  lemma StopDrainsTimers(s: S.State)
    requires S.Inv(s)
    ensures S.Draining(S.Stop(s).0, |s.runs|, S.Stop(s).1)
  {
    assert (s.timers - Order.Elements(s.handles)).Keys == {};
  }

  lemma StopResolvesKeeps(s: State)
    requires Inv(s) && Running(s, STOP_SCHEDULER) && (forall run :: run in s.waiting ==> S.IsCleared(s.scheduler, run))
    ensures Inv(Next(s, StopResolves))
  {
    C.StepKeepsInv(s.shutdown, STEPS, C.Settle(true));
    S.NothingActive(s.scheduler, s.waiting);
    hide S.Inv;
  }

  lemma StepKeepsInv(s: State, e: Event)
    requires Inv(s)
    ensures Inv(Next(s, e))
  {
    match e {
      case Ticked(timer) => SchedulerStepKeeps(s, S.Ticked(timer));
      case Ended(run) => SchedulerStepKeeps(s, S.Ended(run));
      case Cleared(run) => SchedulerStepKeeps(s, S.Cleared(run));
      case Signal => SignalKeeps(s);
      case StopResolves =>
        if Next(s, e) != s {
          StopResolvesKeeps(s);
        }
      case PoolCloses(ok) =>
        C.StepKeepsInv(s.shutdown, STEPS, C.Settle(ok));
        hide S.Inv;
      case Deadline =>
        C.StepKeepsInv(s.shutdown, STEPS, C.Deadline);
        hide S.Inv;
    }
  }

  lemma {:induction false} RunKeepsInv(s: State, events: seq<Event>)
    requires Inv(s)
    ensures Inv(Run(s, events))
    decreases events
  {
    hide Inv, Next;
    if events != [] {
      StepKeepsInv(s, events[0]);
      RunKeepsInv(Next(s, events[0]), events[1..]);
    }
  }

  /** Once the pool begins to close, no sweep is running, no timer is live, and none is ever launched again. */
  lemma DrainBeforeClose(jobs: seq<S.Job>, before: seq<Event>, after: seq<Event>)
    requires PoolCloseBegun(Run(Boot(jobs), before))
    ensures var s := Run(Boot(jobs), before);
            && NothingActive(s.scheduler) && s.scheduler.timers == map[]
            && |Run(s, after).scheduler.runs| == |s.scheduler.runs| && NothingActive(Run(s, after).scheduler)
  {
    BootInv(jobs);
    RunKeepsInv(Boot(jobs), before);
    var s := Run(Boot(jobs), before);
    BegunTwo(s);
    ClosedForGood(s, after);
  }

  lemma BegunTwo(s: State)
    requires Inv(s) && PoolCloseBegun(s)
    ensures |s.shutdown.begun| == 2 && s.shutdown.shuttingDown
  {
    hide S.Inv;
  }

  lemma {:induction false} ClosedForGood(s: State, events: seq<Event>)
    requires Inv(s) && |s.shutdown.begun| == 2 && s.shutdown.shuttingDown
    ensures |Run(s, events).scheduler.runs| == |s.scheduler.runs| && NothingActive(Run(s, events).scheduler)
    decreases events
  {
    if events != [] {
      var s' := Next(s, events[0]);
      StepKeepsInv(s, events[0]);
      KeepsClosing(s, events[0]);
      hide Inv, Next, NothingActive;
      ClosedForGood(s', events[1..]);
    }
  }

  lemma KeepsClosing(s: State, e: Event)
    requires Inv(s) && |s.shutdown.begun| == 2 && s.shutdown.shuttingDown
    ensures |Next(s, e).shutdown.begun| == 2 && Next(s, e).shutdown.shuttingDown
    ensures |Next(s, e).scheduler.runs| == |s.scheduler.runs|
  {
    hide S.Inv;
  }

  /** Exit code 0 means that every run ever launched had ended and the pool had closed, in time. */
  lemma CleanExitAbandonsNothing(jobs: seq<S.Job>, events: seq<Event>)
    requires var s := Run(Boot(jobs), events); s.shutdown.exits != [] && s.shutdown.exits[0] == 0
    ensures var s := Run(Boot(jobs), events);
            NothingActive(s.scheduler) && s.shutdown.settled == [true, true] && !s.shutdown.late
  {
    BootInv(jobs);
    RunKeepsInv(Boot(jobs), events);
    hide S.Inv;
  }

  // ---- until the signal ---------------------------------------------------------------------------

  predicate OfScheduler(e: Event) {
    e.Ticked? || e.Ended? || e.Cleared?
  }

  function AsScheduled(e: Event): S.Event
    requires OfScheduler(e)
  {
    match e
    case Ticked(timer) => S.Ticked(timer)
    case Ended(run) => S.Ended(run)
    case Cleared(run) => S.Cleared(run)
  }

  /** Until the signal the events of the scheduler reach it, and no other event does anything. */
  lemma NextUntilSignal(s: State, e: Event)
    requires s.shutdown == C.Initial && e != Signal
    ensures Next(s, e) == if OfScheduler(e) then s.(scheduler := S.Next(s.scheduler, AsScheduled(e))) else s
  {
  }

  lemma {:induction false} TimersUntilSignal(s: State, events: seq<Event>)
    requires S.Inv(s.scheduler) && s.scheduler.started && s.shutdown == C.Initial && Signal !in events
    ensures var s' := Run(s, events);
            && S.Inv(s'.scheduler) && s'.scheduler.started && s'.shutdown == C.Initial
            && s'.scheduler.timers == s.scheduler.timers
    decreases events
  {
    hide S.Inv, Next, S.Next;
    if events != [] {
      assert events[0] in events && forall e :: e in events[1..] ==> e in events;
      NextUntilSignal(s, events[0]);
      if OfScheduler(events[0]) {
        S.StepKeepsInv(s.scheduler, AsScheduled(events[0]));
        S.TimersPersist(s.scheduler, AsScheduled(events[0]));
      }
      TimersUntilSignal(Next(s, events[0]), events[1..]);
    }
  }

  /**
   * From the boot to the signal every enabled sweep has its timer, and a tick of it launches a run exactly when none of its
   * name is in flight.
   */
  lemma SweepsUntilSignal(jobs: seq<S.Job>, events: seq<Event>, i: nat)
    requires Signal !in events && i < |S.Enabled(jobs)|
    ensures var s, job := Run(Boot(jobs), events), S.Enabled(jobs)[i];
            && i in s.scheduler.timers && s.scheduler.timers[i] == job
            && (if job.name in s.scheduler.inFlight then Next(s, Ticked(i)) == s
                else Next(s, Ticked(i)).shutdown == s.shutdown
                     && S.LaunchedOne(s.scheduler, Next(s, Ticked(i)).scheduler, job.name))
  {
    S.StartArms([], jobs);
    S.StepKeepsInv(S.Idle, S.Started(jobs));
    S.StartedNow(S.Idle, jobs);
    assert S.Start(S.Idle, jobs).handles[i] == i;
    TimersUntilSignal(Boot(jobs), events);
    S.TickLaunches(Run(Boot(jobs), events).scheduler, i);
    hide S.Inv, S.DueOnly, S.Start, S.Next, S.Enabled, Run;
  }

  // ---- when the process exits 0 -------------------------------------------------------------------

  /** No step has failed and the deadline has not come. */
  predicate OnCourse(s: State) {
    !s.shutdown.late && C.AllOk(s.shutdown.settled)
  }

  predicate Disturbs(e: Event) {
    e.Deadline? || e == PoolCloses(false)
  }

  lemma StaysOnCourse(s: State, e: Event)
    ensures OnCourse(s) && !Disturbs(e) ==> OnCourse(Next(s, e))
    ensures !OnCourse(s) ==> !OnCourse(Next(s, e))
  {
    C.AllOkAppend(s.shutdown.settled, true);
    C.AllOkAppend(s.shutdown.settled, false);
    hide C.AllOk;
  }

  lemma {:induction false} CourseOfRun(s: State, events: seq<Event>)
    ensures OnCourse(s) && (forall e :: e in events ==> !Disturbs(e)) ==> OnCourse(Run(s, events))
    ensures !OnCourse(s) ==> !OnCourse(Run(s, events))
    decreases events
  {
    hide OnCourse, Next;
    if events != [] {
      assert events[0] in events;
      StaysOnCourse(s, events[0]);
      CourseOfRun(Next(s, events[0]), events[1..]);
    }
  }

  /** Without the deadline and without a failing pool every exit is with 0. */
  lemma UndisturbedExitsAreClean(jobs: seq<S.Job>, events: seq<Event>)
    requires forall e :: e in events ==> !Disturbs(e)
    ensures forall code :: code in Run(Boot(jobs), events).shutdown.exits ==> code == 0
  {
    BootInv(jobs);
    RunKeepsInv(Boot(jobs), events);
    CourseOfRun(Boot(jobs), events);
    hide S.Inv, C.AllOk;
  }

  lemma {:induction false} RunConcat(s: State, a: seq<Event>, b: seq<Event>)
    ensures Run(s, a + b) == Run(Run(s, a), b)
    decreases a
  {
    hide Next;
    if a == [] {
      assert a + b == b;
    } else {
      assert (a + b)[1..] == a[1..] + b;
      RunConcat(Next(s, a[0]), a[1..], b);
    }
  }

  lemma RunOne(s: State, e: Event)
    ensures Run(s, [e]) == Next(s, e)
  {
    assert [e][1..] == [];
  }

  lemma RunTwo(s: State, d: Event, e: Event)
    ensures Run(s, [d, e]) == Next(Next(s, d), e)
  {
    hide Next;
    assert [d, e] == [d] + [e];
    RunConcat(s, [d], [e]);
    RunOne(s, d);
    RunOne(Next(s, d), e);
  }

  /** A run that is not wedged ends and is cleared, and nothing else changes. */
  lemma SettleOne(s: State, name: string)
    requires S.Inv(s.scheduler) && name in s.scheduler.inFlight
    ensures var run := s.scheduler.inFlight[name];
            var s' := Next(Next(s, Ended(run)), Cleared(run));
            && s'.shutdown == s.shutdown && s'.waiting == s.waiting
            && s'.scheduler.inFlight == s.scheduler.inFlight - {name} && S.Inv(s'.scheduler)
  {
    var run := s.scheduler.inFlight[name];
    S.StepKeepsInv(s.scheduler, S.Ended(run));
    S.StepKeepsInv(S.Next(s.scheduler, S.Ended(run)), S.Cleared(run));
    var ended := S.End(s.scheduler, run);
    assert run in ended.inFlight.Values;
    hide S.Tracked;
  }

  lemma {:induction false} SettleAll(s: State) returns (events: seq<Event>)
    requires S.Inv(s.scheduler)
    ensures var s' := Run(s, events);
            s'.shutdown == s.shutdown && s'.waiting == s.waiting && s'.scheduler.inFlight == map[]
    decreases |s.scheduler.inFlight|
  {
    if s.scheduler.inFlight == map[] {
      events := [];
    } else {
      var name :| name in s.scheduler.inFlight;
      var run := s.scheduler.inFlight[name];
      SettleOne(s, name);
      var s' := Next(Next(s, Ended(run)), Cleared(run));
      hide S.Inv, Next;
      OneLess(s.scheduler.inFlight, name);
      var rest := SettleAll(s');
      events := [Ended(run), Cleared(run)] + rest;
      RunConcat(s, [Ended(run), Cleared(run)], rest);
      RunTwo(s, Ended(run), Cleared(run));
    }
  }

  lemma OneLess(m: map<string, S.RunId>, name: string)
    requires name in m
    ensures |m - {name}| < |m|
  {
    assert (m - {name}).Keys == m.Keys - {name};
    assert |(m - {name}).Keys| == |m - {name}| && |m.Keys| == |m|;
  }

  lemma FinishStop(s: State)
    requires Inv(s) && OnCourse(s) && Running(s, STOP_SCHEDULER) && s.scheduler.inFlight == map[]
    ensures Next(Next(s, StopResolves), PoolCloses(true)).shutdown.exits == [0]
  {
    C.AllOkAppend(s.shutdown.settled, true);
    C.AllOkAppend(s.shutdown.settled + [true], true);
    hide S.Inv, C.AllOk;
  }

  lemma FinishClose(s: State)
    requires Inv(s) && OnCourse(s) && Running(s, CLOSE_POOL)
    ensures Next(s, PoolCloses(true)).shutdown.exits == [0]
  {
    C.AllOkAppend(s.shutdown.settled, true);
    hide S.Inv, C.AllOk;
  }

  /** From every shutdown on course, its runs ending and its pool closing lead to exit 0. */
  lemma CompleteShutdown(s: State) returns (events: seq<Event>)
    requires Inv(s) && OnCourse(s) && s.shutdown.shuttingDown
    ensures Run(s, events).shutdown.exits == [0]
  {
    if Running(s, STOP_SCHEDULER) {
      var settle := SettleAll(s);
      var s1 := Run(s, settle);
      RunKeepsInv(s, settle);
      FinishStop(s1);
      events := settle + [StopResolves, PoolCloses(true)];
      RunConcat(s, settle, [StopResolves, PoolCloses(true)]);
      RunTwo(s1, StopResolves, PoolCloses(true));
    } else if Running(s, CLOSE_POOL) {
      FinishClose(s);
      events := [PoolCloses(true)];
      RunOne(s, PoolCloses(true));
    } else {
      events := [];
      hide S.Inv;
    }
  }

  lemma SignalStaysOnCourse(s: State)
    requires Inv(s) && OnCourse(s) && !s.shutdown.shuttingDown
    ensures Inv(Next(s, Signal)) && OnCourse(Next(s, Signal)) && Next(s, Signal).shutdown.shuttingDown
  {
    StepKeepsInv(s, Signal);
    hide S.Inv;
  }

  lemma OffCourseNeverExits0(s: State)
    requires Inv(s) && !OnCourse(s)
    ensures s.shutdown.exits != [] ==> s.shutdown.exits[0] == 1
  {
    hide S.Inv;
  }

  /**
   * At every moment of every run, the process can still exit 0 if and only if the deadline has not come and no step has
   * failed: nothing but a wedged run or a failing pool ever stands in the way.
   */
  lemma OrderlyExit(jobs: seq<S.Job>, events: seq<Event>)
    ensures var s := Run(Boot(jobs), events);
            OnCourse(s) <==> exists more :: Run(s, more).shutdown.exits != [] && Run(s, more).shutdown.exits[0] == 0
  {
    var s := Run(Boot(jobs), events);
    BootInv(jobs);
    RunKeepsInv(Boot(jobs), events);
    if OnCourse(s) {
      if s.shutdown.shuttingDown {
        var more := CompleteShutdown(s);
        assert Run(s, more).shutdown.exits[0] == 0;
      } else {
        SignalStaysOnCourse(s);
        var rest := CompleteShutdown(Next(s, Signal));
        RunConcat(s, [Signal], rest);
        RunOne(s, Signal);
        assert Run(s, [Signal] + rest).shutdown.exits[0] == 0;
      }
    }
    hide Inv, OnCourse, Next;
    forall more | !OnCourse(s)
      ensures Run(s, more).shutdown.exits != [] ==> Run(s, more).shutdown.exits[0] == 1
    {
      RunKeepsInv(s, more);
      CourseOfRun(s, more);
      OffCourseNeverExits0(Run(s, more));
    }
  }
}
