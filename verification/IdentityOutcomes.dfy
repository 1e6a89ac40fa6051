/** What each operation of the identity machine leaves on disk and in memory, wherever it is cut short. */
module IdentityOutcomes {
  import opened Bytes
  import opened Identity
  import opened IdentityBundle
  import opened IdentityLaws
  import opened IdentityRuns
  import opened Order

  /** Call `i` of the operation takes effect. */
  predicate Reaches(f: Fault, i: nat) {
    f.NoFault? || f.at > i
  }

  /** The state an operation of `n` calls ends in: a process that died loads, a rejection changes nothing. */
  function EndState(before: State, f: Fault, n: nat, after: State): State {
    if f.Crash? then Loading else if n == 0 || Reaches(f, n - 1) then after else before
  }

  lemma PureOutcome(w: World, plan: Plan, f: Fault)
    requires forall i :: 0 <= i < |plan.calls| ==> plan.calls[i] == Pure
    ensures Perform(w, plan, f)
         == w.(state := EndState(w.state, f, |plan.calls|, if plan.done.Some? then plan.done.value else w.state))
  {
    forall n | 0 <= n <= |plan.calls| ensures After(w, plan.calls, n) == w {
      AfterPure(w, plan.calls, n);
    }
  }

  /** The start decides by the active envelope alone, and writes nothing. */
  lemma InitOutcome(w: World, f: Fault)
    ensures Step(w, Init, f) == w.(state := EndState(w.state, f, 1, if w.disk.active.Some? then Locked else NoIdentity))
  {
    PureOutcome(w, InitPlan(w), f);
  }

  /** A lock drops the keys and nothing else. */
  lemma LockOutcome(w: World, f: Fault)
    ensures Step(w, Lock, f).disk == w.disk && Step(w, Lock, f).state == if w.state.Unlocked? then Locked else w.state
  {
  }

  // ---- a new identity -----------------------------------------------------------------------------

  lemma PersistOutcome(w: World, pre: seq<Call>, k: Key, s: Secret, f: Fault)
    requires pre == [] || pre == [Pure]
    ensures var w', p := Perform(w, Plan(pre + PersistCalls(k, s), Some(Unlocked(k, k, []))), f), |pre|;
            && w'.disk == Disk(if Reaches(f, p + 2) then Some(Wrapped(k, s, false)) else w.disk.active, w.disk.retired,
                               if Reaches(f, p) then Some(s) else w.disk.secret)
            && w'.state == EndState(w.state, f, p + 3, Unlocked(k, k, []))
  {
    var calls, p := pre + PersistCalls(k, s), |pre|;
    AfterPure(w, calls, p);
    var w1 := Effect(w, CreateSecret(s));
    assert After(w, calls, 0) == w && After(w, calls, p) == w;
    assert calls[p] == CreateSecret(s) && calls[p + 1] == Pure && calls[p + 2] == SaveActive(Wrapped(k, s, false));
    assert After(w, calls, p + 1) == w1 == After(w, calls, p + 2);
    assert After(w, calls, p + 3) == Effect(w1, SaveActive(Wrapped(k, s, false)));
    hide RetainedKeys, Uncovered;
  }

  /** A set-up writes the secret, then the envelope, and leaves the machine unlocked with the one key. */
  lemma SetupOutcome(w: World, k: Key, s: Secret, f: Fault)
    ensures var w' := Step(w, SetupNew(k, s), f);
            if w.state.NoIdentity? then
              && w'.disk == Disk(if Reaches(f, 3) then Some(Wrapped(k, s, false)) else w.disk.active, w.disk.retired,
                                 if Reaches(f, 1) then Some(s) else w.disk.secret)
              && w'.state == EndState(w.state, f, 4, Unlocked(k, k, []))
            else w'.disk == w.disk && w'.state == EndState(w.state, f, 0, w.state)
  {
    if w.state.NoIdentity? {
      PersistOutcome(NewSession(w), [Pure], k, s, f);
    } else {
      PureOutcome(w, SetupPlan(w, k, s), f);
    }
  }

  /** An import does the same with a given key. */
  lemma ImportOutcome(w: World, k: Key, s: Secret, f: Fault)
    ensures var w' := Step(w, Import(k, s), f);
            if w.state.NoIdentity? then
              && w'.disk == Disk(if Reaches(f, 2) then Some(Wrapped(k, s, false)) else w.disk.active, w.disk.retired,
                                 if Reaches(f, 0) then Some(s) else w.disk.secret)
              && w'.state == EndState(w.state, f, 3, Unlocked(k, k, []))
            else w'.disk == w.disk && w'.state == EndState(w.state, f, 0, w.state)
  {
    if w.state.NoIdentity? {
      assert [] + PersistCalls(k, s) == PersistCalls(k, s);
      PersistOutcome(NewSession(w), [], k, s, f);
    } else {
      PureOutcome(w, ImportPlan(w, k, s), f);
    }
  }

  // ---- wiping -------------------------------------------------------------------------------------

  /** A wipe removes the envelope, then the retired blob, then the secret; only the whole of it leaves the clean slate. */
  lemma WipeOutcome(w: World, f: Fault)
    ensures var w' := Step(w, Wipe, f);
            && w'.disk == Disk(if Reaches(f, 0) then None else w.disk.active, if Reaches(f, 1) then [] else w.disk.retired,
                               if Reaches(f, 2) then None else w.disk.secret)
            && w'.state == EndState(w.state, f, 4, NoIdentity)
  {
    WipeCalls(w);
    hide After, RetainedKeys, Uncovered;
  }

  lemma NothingToStepOn(w: World, op: Op, f: Fault)
    requires w.disk == Disk(None, [], None) && !CreatesIdentity(op)
    ensures Step(w, op, f).disk == Disk(None, [], None)
  {
    match op
    case Init => InitOutcome(w, f);
    case Lock =>
    case Wipe => WipeOutcome(w, f);
    case Rotate(k, nowMs) => PureOutcome(w, RotatePlan(w, k, nowMs), f);
    case Unlock(skip, overlap) => PureOutcome(w, UnlockPlan(w, skip), f);
  }

  /** After a wipe that reached its third deletion nothing is recoverable, over every run without a new identity. */
  lemma WipedForGood(w: World, f: Fault, events: seq<Event>, x: Key)
    requires Reaches(f, 2) && forall e :: e in events ==> !CreatesIdentity(e.op)
    ensures var w' := Run(Step(w, Wipe, f), events); w'.disk == Disk(None, [], None) && !Recoverable(w'.disk, x)
  {
    WipeOutcome(w, f);
    EmptyStaysEmpty(Step(w, Wipe, f), events);
  }

  lemma {:induction false} EmptyStaysEmpty(w: World, events: seq<Event>)
    requires w.disk == Disk(None, [], None) && forall e :: e in events ==> !CreatesIdentity(e.op)
    ensures Run(w, events).disk == Disk(None, [], None)
    decreases events
  {
    hide Step;
    if events != [] {
      assert events[0] in events;
      NothingToStepOn(w, events[0].op, events[0].fault);
      EmptyStaysEmpty(Step(w, events[0].op, events[0].fault), events[1..]);
    }
  }

  // ---- rotating -----------------------------------------------------------------------------------

  /** A rotation retires the identity in front, under the stored secret and with its time, and then replaces the envelope. */
  lemma RotateOutcome(w: World, k: Key, nowMs: int, f: Fault)
    ensures var w' := Step(w, Rotate(k, nowMs), f);
            if w.state.Unlocked? && w.disk.secret.Some? then
              var i, s := w.state.identity, w.disk.secret.value;
              var entry := RetiredEntry(Wrapped(i, s, false), i, FingerprintOf(i), nowMs);
              && w'.disk == Disk(if Reaches(f, 7) then Some(Wrapped(k, s, false)) else w.disk.active,
                                 if Reaches(f, 6) then [entry] + Without(Dedupe(w.disk.retired), {i}) else w.disk.retired,
                                 w.disk.secret)
              && w'.state == EndState(w.state, f, 8, Unlocked(k, k, [i] + w.state.retiredKeys))
            else w'.disk == w.disk && w'.state == EndState(w.state, f, 0, w.state)
  {
    if w.state.Unlocked? && w.disk.secret.Some? {
      RotateCalls(w, k, nowMs);
      PrependKept(w.disk.retired, RetireEntry(w.state.identity, w.disk.secret.value, nowMs));
      hide After, RetainedKeys, Uncovered, RetainedUnder, PrependRetired, Dedupe, Without, Front;
    } else {
      PureOutcome(w, RotatePlan(w, k, nowMs), f);
    }
  }

  // ---- unlocking ----------------------------------------------------------------------------------

  /** Without an envelope an unlock finds no identity; with one it opens it and the retired keys that were not skipped. */
  lemma UnlockOutcome(w: World, skip: set<Key>, f: Fault)
    requires Inv(w)
    ensures var w' := Step(w, Unlock(skip, Quiet), f);
            match w.disk.active
            case None => w'.disk == w.disk && w'.state == EndState(w.state, f, 1, NoIdentity)
            case Some(a) =>
              && w'.disk == w.disk.(active := Some(a.(heavy := a.heavy && !Reaches(f, 6))))
              && w'.state == (if f.Crash? then Loading
                              else if Reaches(f, 3) then
                                Unlocked(a.key, a.key, Keep(Rebuild(w.disk.retired, a.secret, a.key), skip))
                              else w.state)
  {
    var plan := UnlockPlan(w, skip);
    PureOutcome(w, plan, f);
    UnlockReads(w, skip);
    if w.disk.active.Some? {
      UnlockOpens(w, skip);
    }
    hide Inv, Finish, Perform, Rebuild, Keep, RetainedKeys, Uncovered;
  }

  /** A lock or a wipe while the envelope is re-wrapped stands: nothing is written after it. */
  lemma TailRespectsOverlap(w: World, skip: set<Key>, overlap: Overlap, f: Fault)
    requires Inv(w) && w.disk.active.Some? && Reaches(f, 3) && (overlap.LocksMeanwhile? || overlap.WipesMeanwhile?)
    ensures var w', ran := Step(w, Unlock(skip, overlap), f), !(f.Crash? && f.at < 6);
            && w'.disk == (if ran && overlap.WipesMeanwhile? then Disk(None, [], None) else w.disk)
            && w'.state == (if f.Crash? then Loading else if overlap.LocksMeanwhile? then Locked else NoIdentity)
  {
    var plan := UnlockPlan(w, skip);
    UnlockReads(w, skip);
    UnlockOpens(w, skip);
    var w1 := Finish(w, plan).(skipped := skip - {plan.done.value.identity}, purged := {});
    WipeOutcome(w1, NoFault);
    hide Inv, Finish, Perform, Effect, Rebuild, Keep;
  }
}
