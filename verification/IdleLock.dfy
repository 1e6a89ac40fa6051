/**
 * The idle-lock timer. A reset while a timeout is outstanding only moves the deadline; the timeout, when it fires,
 * either locks or waits out what is left.
 */
module IdleLock {
  import opened Bytes

  type Timeout = nat

  datatype Entry =
    | WasReset(at: int)
    | WasStopped(at: int)
    | Expired(at: int)

  /**
   * `pending` holds the runtime's outstanding timeouts with the instants they are due. `log` is what happened;
   * `scheduled` counts the timeouts asked for.
   */
  datatype State = State(
    handle: Option<Timeout>,
    deadline: int,
    now: int,
    pending: map<Timeout, int>,
    next: Timeout,
    scheduled: nat,
    log: seq<Entry>)

  function Initial(now: int): State {
    State(None, 0, now, map[], 0, 0, [])
  }

  function Schedule(s: State, ms: int): State {
    s.(handle := Some(s.next), pending := s.pending[s.next := s.now + ms], next := s.next + 1, scheduled := s.scheduled + 1)
  }

  function Reset(s: State, timeoutMs: nat): State {
    var s1 := s.(deadline := s.now + timeoutMs, log := s.log + [WasReset(s.now)]);
    if s.handle.None? then Schedule(s1, timeoutMs) else s1
  }

  function Stop(s: State): State {
    var s1 := s.(log := s.log + [WasStopped(s.now)]);
    if s.handle.None? then s1 else s1.(handle := None, pending := s.pending - {s.handle.value})
  }

  function Tick(s: State): State {
    var remaining := s.deadline - s.now;
    if remaining <= 0 then s.(handle := None, log := s.log + [Expired(s.now)]) else Schedule(s.(handle := None), remaining)
  }

  datatype Event = Pass(to: int) | Resets | Stops | Fires(timeout: Timeout)

  /** The clock never runs backwards, no timeout fires early, and none fires more than `lateMs` late. */
  predicate Allowed(s: State, e: Event, lateMs: nat) {
    match e
    case Pass(to) => s.now <= to && forall t :: t in s.pending ==> to <= s.pending[t] + lateMs
    case Fires(t) => t in s.pending && s.pending[t] <= s.now
    case _ => true
  }

  function Next(s: State, e: Event, timeoutMs: nat): State {
    match e
    case Pass(to) => s.(now := to)
    case Resets => Reset(s, timeoutMs)
    case Stops => Stop(s)
    case Fires(t) => Tick(s.(pending := s.pending - {t}))
  }

  function Run(s: State, events: seq<Event>, timeoutMs: nat): State
    decreases events
  {
    if events == [] then s else Run(Next(s, events[0], timeoutMs), events[1..], timeoutMs)
  }

  predicate AllowedRun(s: State, events: seq<Event>, timeoutMs: nat, lateMs: nat)
    decreases events
  {
    events == []
    || (Allowed(s, events[0], lateMs) && AllowedRun(Next(s, events[0], timeoutMs), events[1..], timeoutMs, lateMs))
  }

  // ---- what a history says ------------------------------------------------------------------------

  /** The instant of the last reset. */
  function LastReset(log: seq<Entry>): Option<int> {
    if log == [] then None
    else if log[|log| - 1].WasReset? then Some(log[|log| - 1].at)
    else LastReset(log[..|log| - 1])
  }

  /** A countdown is on: the last thing that happened was a reset. */
  predicate CountingDown(log: seq<Entry>) {
    log != [] && log[|log| - 1].WasReset?
  }

  function Resetted(log: seq<Entry>): nat {
    if log == [] then 0 else Resetted(log[..|log| - 1]) + (if log[|log| - 1].WasReset? then 1 else 0)
  }

  /** Every expiry ended a countdown that had run its whole time, and came no later than the runtime is late. */
  ghost predicate Punctual(log: seq<Entry>, timeoutMs: nat, lateMs: nat) {
    forall i :: 0 <= i < |log| && log[i].Expired? ==>
      CountingDown(log[..i])
      && log[i - 1].at + timeoutMs <= log[i].at <= log[i - 1].at + timeoutMs + lateMs
  }

  /** The outstanding timeout is due before the deadline: a reset has moved it. */
  predicate Stale(s: State) {
    s.handle.Some? && s.handle.value in s.pending && s.pending[s.handle.value] < s.deadline
  }

  ghost predicate Inv(s: State, timeoutMs: nat, lateMs: nat) {
    && s.pending.Keys == (if s.handle.Some? then {s.handle.value} else {})
    && (s.handle.Some? <==> CountingDown(s.log))
    && (s.log != [] ==> s.log[|s.log| - 1].at <= s.now)
    && (s.handle.Some? ==>
          s.handle.value < s.next && s.pending[s.handle.value] <= s.deadline && s.now <= s.pending[s.handle.value] + lateMs
          && s.deadline == s.log[|s.log| - 1].at + timeoutMs)
    && s.scheduled + (if Stale(s) then 1 else 0) <= Resetted(s.log)
    && Punctual(s.log, timeoutMs, lateMs)
  }

  lemma LogGrows(log: seq<Entry>, e: Entry, timeoutMs: nat, lateMs: nat)
    requires Punctual(log, timeoutMs, lateMs)
    requires e.Expired? ==>
               CountingDown(log) && log[|log| - 1].at + timeoutMs <= e.at <= log[|log| - 1].at + timeoutMs + lateMs
    ensures Punctual(log + [e], timeoutMs, lateMs)
    ensures Resetted(log + [e]) == Resetted(log) + (if e.WasReset? then 1 else 0)
    ensures CountingDown(log + [e]) <==> e.WasReset?
  {
    assert (log + [e])[..|log|] == log;
    forall i | 0 <= i < |log + [e]| && (log + [e])[i].Expired?
      ensures CountingDown((log + [e])[..i])
              && (log + [e])[i - 1].at + timeoutMs <= (log + [e])[i].at <= (log + [e])[i - 1].at + timeoutMs + lateMs
    {
      if i < |log| {
        assert (log + [e])[..i] == log[..i];
      }
    }
  }

  lemma ResetKeeps(s: State, timeoutMs: nat, lateMs: nat)
    requires Inv(s, timeoutMs, lateMs)
    ensures Inv(Reset(s, timeoutMs), timeoutMs, lateMs)
  {
    LogGrows(s.log, WasReset(s.now), timeoutMs, lateMs);
    hide Punctual, Resetted;
  }

  lemma StopKeeps(s: State, timeoutMs: nat, lateMs: nat)
    requires Inv(s, timeoutMs, lateMs)
    ensures Inv(Stop(s), timeoutMs, lateMs)
  {
    LogGrows(s.log, WasStopped(s.now), timeoutMs, lateMs);
    hide Punctual, Resetted;
  }

  lemma FireKeeps(s: State, t: Timeout, timeoutMs: nat, lateMs: nat)
    requires Inv(s, timeoutMs, lateMs) && Allowed(s, Fires(t), lateMs)
    ensures Inv(Next(s, Fires(t), timeoutMs), timeoutMs, lateMs)
  {
    assert s.handle == Some(t);
    if s.deadline <= s.now {
      LogGrows(s.log, Expired(s.now), timeoutMs, lateMs);
    }
    hide Punctual, Resetted;
    assert (s.pending - {t}).Keys == {};
  }

  lemma StepKeepsInv(s: State, e: Event, timeoutMs: nat, lateMs: nat)
    requires Inv(s, timeoutMs, lateMs) && Allowed(s, e, lateMs)
    ensures Inv(Next(s, e, timeoutMs), timeoutMs, lateMs)
  {
    match e {
      case Pass(_) => hide Punctual, Resetted;
      case Resets => ResetKeeps(s, timeoutMs, lateMs);
      case Stops => StopKeeps(s, timeoutMs, lateMs);
      case Fires(t) => FireKeeps(s, t, timeoutMs, lateMs);
    }
  }

  lemma {:induction false} RunKeepsInv(s: State, events: seq<Event>, timeoutMs: nat, lateMs: nat)
    requires Inv(s, timeoutMs, lateMs) && AllowedRun(s, events, timeoutMs, lateMs)
    ensures Inv(Run(s, events, timeoutMs), timeoutMs, lateMs)
    decreases events
  {
    hide Inv, Next, Allowed;
    if events != [] {
      StepKeepsInv(s, events[0], timeoutMs, lateMs);
      RunKeepsInv(Next(s, events[0], timeoutMs), events[1..], timeoutMs, lateMs);
    }
  }

  // ---- the promises -------------------------------------------------------------------------------

  /**
   * Every lock comes when a countdown has run its whole time since the last reset, with no stop or lock in between, and
   * at most as late as the runtime's timeouts are: with exact timeouts (`lateMs` of 0), exactly on time.
   */
  lemma ExpiresOnTime(now: int, events: seq<Event>, timeoutMs: nat, lateMs: nat, i: nat)
    requires AllowedRun(Initial(now), events, timeoutMs, lateMs)
    requires i < |Run(Initial(now), events, timeoutMs).log| && Run(Initial(now), events, timeoutMs).log[i].Expired?
    ensures var log := Run(Initial(now), events, timeoutMs).log;
            && i > 0 && log[i - 1].WasReset? && LastReset(log[..i]) == Some(log[i - 1].at)
            && log[i - 1].at + timeoutMs <= log[i].at <= log[i - 1].at + timeoutMs + lateMs
  {
    RunKeepsInv(Initial(now), events, timeoutMs, lateMs);
    var log := Run(Initial(now), events, timeoutMs).log;
    assert CountingDown(log[..i]);
  }

  /** A countdown that is on cannot outlive its time: the clock does not get past it without a lock. */
  lemma NeverOverdue(now: int, events: seq<Event>, timeoutMs: nat, lateMs: nat)
    requires AllowedRun(Initial(now), events, timeoutMs, lateMs)
    ensures var s := Run(Initial(now), events, timeoutMs);
            CountingDown(s.log) ==> s.now <= s.log[|s.log| - 1].at + timeoutMs + lateMs
  {
    RunKeepsInv(Initial(now), events, timeoutMs, lateMs);
    hide Punctual, Resetted;
  }

  /** At most one timeout is outstanding, exactly while a countdown is on, and it is never due after the deadline. */
  lemma OneTimeoutBeforeTheDeadline(now: int, events: seq<Event>, timeoutMs: nat, lateMs: nat)
    requires AllowedRun(Initial(now), events, timeoutMs, lateMs)
    ensures var s := Run(Initial(now), events, timeoutMs);
            && |s.pending| == (if CountingDown(s.log) then 1 else 0)
            && forall t :: t in s.pending ==>
                 s.handle == Some(t) && s.pending[t] <= s.deadline == s.log[|s.log| - 1].at + timeoutMs
  {
    RunKeepsInv(Initial(now), events, timeoutMs, lateMs);
    hide Punctual, Resetted;
    var s := Run(Initial(now), events, timeoutMs);
    assert |s.pending| == |s.pending.Keys|;
  }

  /** However often it is reset, the timer asks the runtime for no more timeouts than there were resets. */
  lemma NoTimerChurn(now: int, events: seq<Event>, timeoutMs: nat, lateMs: nat)
    requires AllowedRun(Initial(now), events, timeoutMs, lateMs)
    ensures Run(Initial(now), events, timeoutMs).scheduled <= Resetted(Run(Initial(now), events, timeoutMs).log)
  {
    RunKeepsInv(Initial(now), events, timeoutMs, lateMs);
    hide Punctual, Resetted;
  }

  // ---- the timer as the object it is --------------------------------------------------------------

  class IdleLockTimer {
    const timeoutMs: nat
    var handle: Option<Timeout>
    var deadline: int
    // The injected clock and timeouts, and the calls of `onExpire` among the other entries.
    var now: int
    var pending: map<Timeout, int>
    var next: Timeout
    var scheduled: nat
    var log: seq<Entry>

    constructor (timeoutMs: nat, now: int)
      ensures this.timeoutMs == timeoutMs && Contents() == Initial(now)
    {
      this.timeoutMs := timeoutMs;
      handle, deadline := None, 0;
      this.now, pending, next, scheduled, log := now, map[], 0, 0, [];
    }

    function Contents(): State
      reads this
    {
      State(handle, deadline, now, pending, next, scheduled, log)
    }

    method SetTimeout(ms: int) returns (t: Timeout)
      modifies this
      ensures handle == old(handle) && Contents().(handle := Some(t)) == Schedule(old(Contents()), ms)
    {
      t := next;
      pending, next, scheduled := pending[t := now + ms], next + 1, scheduled + 1;
    }

    method ClearTimeout(t: Timeout)
      modifies this
      ensures Contents() == old(Contents()).(pending := old(pending) - {t})
    {
      pending := pending - {t};
    }

    method ResetCountdown()
      modifies this
      ensures Contents() == Next(old(Contents()), Resets, timeoutMs)
    {
      deadline := now + timeoutMs;
      log := log + [WasReset(now)];
      if handle.None? {
        var t := SetTimeout(timeoutMs);
        handle := Some(t);
      }
    }

    method StopCountdown()
      modifies this
      ensures Contents() == Next(old(Contents()), Stops, timeoutMs)
    {
      log := log + [WasStopped(now)];
      if handle.Some? {
        ClearTimeout(handle.value);
        handle := None;
      }
    }

    /** The runtime drops the timeout and calls back. */
    method Fire(t: Timeout)
      modifies this
      ensures Contents() == Next(old(Contents()), Fires(t), timeoutMs)
    {
      pending := pending - {t};
      handle := None;
      var remaining := deadline - now;
      if remaining <= 0 {
        log := log + [Expired(now)];
      } else {
        var again := SetTimeout(remaining);
        handle := Some(again);
      }
    }
  }
}
