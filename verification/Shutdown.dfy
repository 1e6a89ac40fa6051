/** The ordered shutdown of the worker: its steps one after the other, under a deadline. */
module Shutdown {

  /** `begun` and `settled` record the steps begun and how each ended; `late` that the deadline came; `exits` the exit codes. */
  datatype State = State(
    shuttingDown: bool,
    hadError: bool,
    timerArmed: bool,
    begun: seq<nat>,
    settled: seq<bool>,
    late: bool,
    exits: seq<int>)

  const Initial: State := State(false, false, false, [], [], false, [])

  datatype Event = Signal | Settle(ok: bool) | Deadline

  /** Begin step `i` of `n`, or, past the last one, disarm the deadline and exit. */
  function Advance(s: State, n: nat, i: nat): State {
    if i < n then s.(begun := s.begun + [i])
    else s.(timerArmed := false, exits := s.exits + [if s.hadError then 1 else 0])
  }

  /** A step is running: one has begun that has not settled. */
  predicate Awaiting(s: State) {
    |s.settled| < |s.begun|
  }

  function Next(s: State, n: nat, e: Event): State {
    match e
    case Signal => if s.shuttingDown then s else Advance(s.(shuttingDown := true, timerArmed := true), n, 0)
    case Settle(ok) =>
      if !Awaiting(s) then s
      else Advance(s.(hadError := s.hadError || !ok, settled := s.settled + [ok]), n, |s.settled| + 1)
    case Deadline => if s.timerArmed then s.(timerArmed := false, late := true, exits := s.exits + [1]) else s
  }

  function Run(s: State, n: nat, events: seq<Event>): State
    decreases events
  {
    if events == [] then s else Run(Next(s, n, events[0]), n, events[1..])
  }

  predicate Finished(s: State, n: nat) {
    s.shuttingDown && |s.settled| == n
  }

  predicate AllOk(settled: seq<bool>) {
    forall i :: 0 <= i < |settled| ==> settled[i]
  }

  /** What every moment of every shutdown satisfies. */
  ghost predicate Inv(s: State, n: nat) {
    && |s.begun| == (if !s.shuttingDown then 0 else if Finished(s, n) then n else |s.settled| + 1)
    && |s.settled| <= n
    && (forall i :: 0 <= i < |s.begun| ==> s.begun[i] == i)
    && (!s.shuttingDown ==> s == Initial)
    && s.hadError == !AllOk(s.settled)
    && (s.timerArmed <==> s.shuttingDown && !Finished(s, n) && !s.late)
    && s.exits == (if s.late then [1] else []) + (if Finished(s, n) then [if AllOk(s.settled) then 0 else 1] else [])
  }

  lemma AllOkAppend(settled: seq<bool>, ok: bool)
    ensures AllOk(settled + [ok]) <==> AllOk(settled) && ok
  {
    if AllOk(settled + [ok]) {
      forall i | 0 <= i < |settled| ensures settled[i] {
        assert (settled + [ok])[i];
      }
      assert (settled + [ok])[|settled|];
    }
  }

  lemma StepKeepsInv(s: State, n: nat, e: Event)
    requires Inv(s, n)
    ensures Inv(Next(s, n, e), n)
  {
    if e.Settle? {
      AllOkAppend(s.settled, e.ok);
      hide AllOk;
    }
  }

  lemma {:induction false} RunKeepsInv(s: State, n: nat, events: seq<Event>)
    requires Inv(s, n)
    ensures Inv(Run(s, n, events), n)
    decreases events
  {
    hide Inv, Next;
    if events != [] {
      StepKeepsInv(s, n, events[0]);
      RunKeepsInv(Next(s, n, events[0]), n, events[1..]);
    }
  }

  /** However many signals arrive, steps run in order, none twice, and all of them before an orderly exit. */
  lemma EachStepOnceInOrder(n: nat, events: seq<Event>)
    ensures var s := Run(Initial, n, events);
            && |s.begun| <= n && (forall i :: 0 <= i < |s.begun| ==> s.begun[i] == i)
            && (Finished(s, n) ==> |s.begun| == n)
            && |s.settled| <= |s.begun| <= |s.settled| + 1
  {
    RunKeepsInv(Initial, n, events);
  }

  /** The first exit code is 0 exactly when every step succeeded before the deadline came. */
  lemma ExitCode(n: nat, events: seq<Event>)
    ensures var s := Run(Initial, n, events);
            && (s.exits != [] <==> s.late || Finished(s, n))
            && (s.exits != [] ==> (s.exits[0] == 0 <==> !s.late && Finished(s, n) && AllOk(s.settled)))
            && (s.exits != [] && s.exits[0] != 0 ==> s.exits[0] == 1)
            && (forall k :: 0 <= k < |s.exits| && s.exits[k] == 0 ==> Finished(s, n) && AllOk(s.settled))
  {
    RunKeepsInv(Initial, n, events);
  }

  /** The first signal begins the first step; with no step at all it exits at once. */
  lemma SignalBegins(n: nat)
    ensures var s := Next(Initial, n, Signal);
            && s.shuttingDown && s.settled == [] && !s.late
            && (if n == 0 then s.begun == [] && s.exits == [0] else s.begun == [0] && s.exits == [])
  {
  }

  /** A step that settles is followed by the next one, whether it failed or not, and the last one by the exit. */
  lemma SettlingGoesOn(n: nat, events: seq<Event>, ok: bool)
    requires Awaiting(Run(Initial, n, events))
    ensures var s := Run(Initial, n, events);
            var s' := Next(s, n, Settle(ok));
            && s'.settled == s.settled + [ok] && s'.late == s.late
            && (if |s.settled| + 1 < n then s'.begun == s.begun + [|s.settled| + 1] && s'.exits == s.exits
                else s'.begun == s.begun && s'.exits == s.exits + [if AllOk(s.settled) && ok then 0 else 1])
  {
    RunKeepsInv(Initial, n, events);
    AllOkAppend(Run(Initial, n, events).settled, ok);
    hide AllOk, Run;
  }

  /** While a step hangs the deadline, and only the deadline, ends the process: with 1, whatever ran before. */
  lemma DeadlineEndsIt(n: nat, events: seq<Event>)
    ensures var s := Run(Initial, n, events);
            var s' := Next(s, n, Deadline);
            if s.shuttingDown && !Finished(s, n) && !s.late then s'.late && s.exits == [] && s'.exits == [1] else s' == s
  {
    RunKeepsInv(Initial, n, events);
    hide AllOk, Run;
  }

  /** Once the process has a first exit code, later events never change it. */
  lemma {:induction false} FirstExitStands(s: State, n: nat, events: seq<Event>)
    requires s.exits != []
    ensures Run(s, n, events).exits != [] && Run(s, n, events).exits[0] == s.exits[0]
    decreases events
  {
    if events != [] {
      FirstExitStands(Next(s, n, events[0]), n, events[1..]);
    }
  }

  // ---- the controller as the object it is ---------------------------------------------------------

  /** What happens while the steps run: how each ends, and during which of them, if any, the deadline passes. */
  function Script(outcomes: seq<bool>, deadline: nat, i: nat): (events: seq<Event>)
    requires i <= |outcomes|
    decreases |outcomes| - i
  {
    if i == |outcomes| then []
    else (if i == deadline then [Deadline] else []) + [Settle(outcomes[i])] + Script(outcomes, deadline, i + 1)
  }

  lemma {:induction false} RunConcat(s: State, n: nat, a: seq<Event>, b: seq<Event>)
    ensures Run(s, n, a + b) == Run(Run(s, n, a), n, b)
    decreases a
  {
    if a == [] {
      assert a + b == b;
    } else {
      assert (a + b)[1..] == a[1..] + b;
      RunConcat(Next(s, n, a[0]), n, a[1..], b);
    }
  }

  lemma Script0(outcomes: seq<bool>, deadline: nat, i: nat, s: State, n: nat)
    requires i < |outcomes|
    ensures var s1 := if i == deadline then Next(s, n, Deadline) else s;
            Run(s, n, Script(outcomes, deadline, i))
            == Run(Next(s1, n, Settle(outcomes[i])), n, Script(outcomes, deadline, i + 1))
  {
    hide Next;
    var first := (if i == deadline then [Deadline] else []) + [Settle(outcomes[i])];
    RunConcat(s, n, first, Script(outcomes, deadline, i + 1));
    if i == deadline {
      assert first == [Deadline, Settle(outcomes[i])];
    } else {
      assert first == [Settle(outcomes[i])];
    }
    assert Script(outcomes, deadline, i) == first + Script(outcomes, deadline, i + 1);
  }

  class Controller {
    const steps: nat
    var shuttingDown: bool
    var hadError: bool
    var timerArmed: bool
    var begun: seq<nat>
    var settled: seq<bool>
    var late: bool
    var exits: seq<int>

    constructor (steps: nat)
      ensures this.steps == steps && Contents() == Initial
    {
      this.steps := steps;
      shuttingDown, hadError, timerArmed, late := false, false, false, false;
      begun, settled, exits := [], [], [];
    }

    function Contents(): State
      reads this
    {
      State(shuttingDown, hadError, timerArmed, begun, settled, late, exits)
    }

    method OnDeadline()
      modifies this
      ensures Contents() == Next(old(Contents()), steps, Deadline)
    {
      if timerArmed {
        timerArmed, late, exits := false, true, exits + [1];
      }
    }

    /** One turn of the loop; `expires` when the deadline passes while the step runs. */
    method RunStep(i: nat, ok: bool, expires: bool)
      requires i < steps && i == |settled| == |begun|
      modifies this
      ensures i + 1 == |settled| == |begun|
      ensures var running := Advance(old(Contents()), steps, i);
              Advance(Contents(), steps, i + 1)
              == Next(if expires then Next(running, steps, Deadline) else running, steps, Settle(ok))
    {
      begun := begun + [i];
      if expires {
        OnDeadline();
      }
      settled := settled + [ok];
      if !ok {
        hadError := true;
      }
    }

    /** A second signal is ignored; the first runs every step, whatever the earlier ones did, and then exits. */
    method RequestShutdown(outcomes: seq<bool>, deadline: nat)
      requires |outcomes| == steps && Inv(Contents(), steps)
      modifies this
      ensures old(shuttingDown) ==> Contents() == old(Contents())
      ensures !old(shuttingDown) ==> Contents() == Run(Initial, steps, [Signal] + Script(outcomes, deadline, 0))
      ensures !old(shuttingDown) ==> |settled| == steps && |exits| > 0
    {
      if shuttingDown {
        return;
      }
      shuttingDown, timerArmed := true, true;
      ghost var first := Next(Initial, steps, Signal);
      assert first == Advance(Contents(), steps, 0);
      hide Inv, AllOk, Script, Run, Next, Advance;
      var i := 0;
      while i < steps
        invariant 0 <= i <= steps && i == |settled| == |begun|
        invariant Run(Advance(Contents(), steps, i), steps, Script(outcomes, deadline, i))
               == Run(first, steps, Script(outcomes, deadline, 0))
      {
        Script0(outcomes, deadline, i, Advance(Contents(), steps, i), steps);
        RunStep(i, outcomes[i], i == deadline);
        i := i + 1;
      }
      ghost var loopEnd := Contents();
      timerArmed := false;
      exits := exits + [if hadError then 1 else 0];
      AdvancePastLast(loopEnd, steps);
      ScriptEnds(outcomes, deadline, Contents(), steps);
      RunFirst(Initial, steps, Signal, Script(outcomes, deadline, 0));
    }
  }

  lemma AdvancePastLast(s: State, n: nat)
    ensures Advance(s, n, n) == s.(timerArmed := false, exits := s.exits + [if s.hadError then 1 else 0])
  {
  }

  lemma ScriptEnds(outcomes: seq<bool>, deadline: nat, s: State, n: nat)
    ensures Run(s, n, Script(outcomes, deadline, |outcomes|)) == s
  {
  }

  lemma RunFirst(s: State, n: nat, e: Event, rest: seq<Event>)
    ensures Run(s, n, [e] + rest) == Run(Next(s, n, e), n, rest)
  {
  }
}
