/** Whole runs of the identity machine: which keys are lost, what brings one back, and what stays lost. */
module IdentityRuns {
  import opened Bytes
  import opened IdentityBundle
  import opened Identity
  import opened IdentityLaws
  import opened Order

  datatype Event = Event(op: Op, fault: Fault)

  function Run(w: World, events: seq<Event>): World
    decreases events
  {
    if events == [] then w else Run(Step(w, events[0].op, events[0].fault), events[1..])
  }

  ghost predicate ValidRun(w: World, events: seq<Event>)
    decreases events
  {
    events == [] || (ValidOp(w, events[0].op) && ValidRun(Step(w, events[0].op, events[0].fault), events[1..]))
  }

  lemma {:induction false} RunKeepsInv(w: World, events: seq<Event>)
    requires Inv(w) && ValidRun(w, events)
    ensures Inv(Run(w, events))
    decreases events
  {
    hide Inv, Step, ValidOp;
    if events != [] {
      StepKeepsInv(w, events[0].op, events[0].fault);
      RunKeepsInv(Step(w, events[0].op, events[0].fault), events[1..]);
    }
  }

  /** Reachable from some disk an earlier version may have left. */
  ghost predicate Reachable(w: World) {
    exists disk, events :: ValidDisk(disk) && ValidRun(Start(disk), events) && w == Run(Start(disk), events)
  }

  lemma ReachableInv(w: World)
    requires Reachable(w)
    ensures Inv(w)
  {
    var disk, events :| ValidDisk(disk) && ValidRun(Start(disk), events) && w == Run(Start(disk), events);
    StartInv(disk);
    RunKeepsInv(Start(disk), events);
  }

  // ---- which keys are on disk ---------------------------------------------------------------------

  /** The key can be unwrapped from the active envelope or from a retained entry, under the stored secret. */
  ghost predicate Recoverable(disk: Disk, k: Key) {
    && disk.secret.Some?
    && (|| (disk.active.Some? && Unwrap(disk.active.value, disk.secret.value) == Some(k))
        || exists e :: e in LoadRetired(disk) && Unwrap(e.wrapped, disk.secret.value) == Some(k))
  }

  lemma RecoverableIsListed(w: World, k: Key)
    requires Inv(w) && w.disk.secret.Some?
    ensures Recoverable(w.disk, k) <==>
            (w.disk.active.Some? && w.disk.active.value.key == k) || k in RetainedUnder(w.disk.retired, w.disk.secret)
  {
    KeysUnderMembers(LoadRetired(w.disk), w.disk.secret.value);
    hide MemInv, KeptInv, RetainedInv, Dedupe, KeysUnder;
  }

  /** A key whose last copy on disk a wipe deleted or a save replaced, and that has not been written since. */
  function Lost(w: World): set<Key> {
    w.deleted + w.overwritten
  }

  /**
   * While the device secret is stored, the disk holds exactly the keys active since it was created that are not lost, the
   * retired ones in the order of their retirement.
   */
  lemma NoKeyLost(w: World)
    requires Reachable(w) && w.disk.secret.Some?
    ensures forall k :: Recoverable(w.disk, k) <==> k in w.activated && k !in w.deleted && k !in w.overwritten
    ensures RetainedUnder(w.disk.retired, w.disk.secret) == Keep(w.kept, w.deleted)
  {
    ReachableInv(w);
    forall k ensures Recoverable(w.disk, k) <==> k in w.activated && k !in Lost(w) {
      RecoverableUnlessLost(w, k);
    }
  }

  lemma RecoverableUnlessLost(w: World, k: Key)
    requires Inv(w) && w.disk.secret.Some?
    ensures Recoverable(w.disk, k) <==> k in w.activated && k !in Lost(w)
  {
    RecoverableIsListed(w, k);
    KeepMembers(w.kept, w.deleted);
    hide Recoverable, RetainedUnder, Keep, MemInv;
  }

  // ---- the history of keys ------------------------------------------------------------------------

  predicate Suffix(a: seq<Key>, b: seq<Key>) {
    |a| <= |b| && b[|b| - |a|..] == a
  }

  predicate CreatesIdentity(op: Op) {
    op.SetupNew? || op.Import?
  }

  lemma EffectGrows(w: World, c: Call)
    requires !c.CreateSecret?
    ensures Suffix(w.activated, Effect(w, c).activated)
  {
    hide RetainedKeys, Uncovered, RetainedUnder, Front;
  }

  lemma SuffixTrans(a: seq<Key>, b: seq<Key>, c: seq<Key>)
    requires Suffix(a, b) && Suffix(b, c)
    ensures Suffix(a, c)
  {
    assert a == b[|b| - |a|..] == c[|c| - |b|..][|b| - |a|..];
  }

  lemma {:induction false} CallsGrow(w: World, calls: seq<Call>, n: nat)
    requires n <= |calls| && forall i :: 0 <= i < n ==> !calls[i].CreateSecret?
    ensures Suffix(w.activated, After(w, calls, n).activated)
  {
    hide Effect;
    if n == 0 {
      assert w.activated[0..] == w.activated;
    } else {
      hide Suffix;
      CallsGrow(w, calls, n - 1);
      var before := After(w, calls, n - 1);
      EffectGrows(before, calls[n - 1]);
      SuffixTrans(w.activated, before.activated, Effect(before, calls[n - 1]).activated);
    }
  }

  lemma PlanGrows(w: World, plan: Plan, f: Fault)
    requires forall i :: 0 <= i < |plan.calls| ==> !plan.calls[i].CreateSecret?
    ensures Suffix(w.activated, Perform(w, plan, f).activated)
  {
    forall n | 0 <= n <= |plan.calls| ensures Suffix(w.activated, After(w, plan.calls, n).activated) {
      CallsGrow(w, plan.calls, n);
    }
  }

  lemma OverlapGrows(w: World, overlap: Overlap)
    ensures Suffix(w.activated, Overlapped(w, overlap).activated)
  {
    match overlap
    case Quiet =>
    case LocksMeanwhile =>
    case WipesMeanwhile => PlanGrows(w, WipePlan(w), NoFault);
    case RotatesMeanwhile(k, nowMs) => PlanGrows(w, RotatePlan(w, k, nowMs), NoFault);
  }

  lemma TailGrows(w: World, wrapped: Wrapped, secret: Secret, overlap: Overlap, f: Fault)
    ensures Suffix(w.activated, Tail(w, wrapped, secret, overlap, f).activated)
  {
    hide Overlapped, Effect;
    var w2, save := Overlapped(w, overlap), SaveActive(Wrapped(wrapped.key, secret, false));
    assert Suffix(w.activated, w.activated);
    hide Suffix;
    OverlapGrows(w, overlap);
    EffectGrows(w2, save);
    SuffixTrans(w.activated, w2.activated, Effect(w2, save).activated);
  }

  /** An unlock writes nothing before its tail. */
  lemma UnlockReads(w: World, skip: set<Key>)
    ensures var plan := UnlockPlan(w, skip);
            && (forall i :: 0 <= i < |plan.calls| ==> plan.calls[i] == Pure)
            && (plan.done.Some? ==> Finish(w, plan) == w.(state := plan.done.value))
            && (plan.done.Some? && plan.done.value.Unlocked? ==>
                  w.disk.active.Some? && w.disk.secret.Some? && plan.done.value.identity == w.disk.active.value.key)
  {
    var plan := UnlockPlan(w, skip);
    AfterPure(w, plan.calls, |plan.calls|);
    hide Rebuild, Keep;
  }

  lemma UnlockGrows(w: World, skip: set<Key>, overlap: Overlap, f: Fault)
    ensures Suffix(w.activated, UnlockStep(w, skip, overlap, f).activated)
  {
    hide UnlockPlan, Finish, Perform, Tail, Suffix;
    var plan := UnlockPlan(w, skip);
    UnlockReads(w, skip);
    PlanGrows(w, plan, f);
    if plan.done.Some? && plan.done.value.Unlocked? {
      var w1 := Finish(w, plan).(skipped := skip - {plan.done.value.identity}, purged := {});
      TailGrows(w1, w.disk.active.value, w.disk.secret.value, overlap, f);
    }
  }

  lemma StepGrows(w: World, op: Op, f: Fault)
    requires !CreatesIdentity(op)
    ensures Suffix(w.activated, Step(w, op, f).activated)
  {
    match op
    case Init => PlanGrows(w, InitPlan(w), f);
    case Lock =>
    case Wipe => PlanGrows(w, WipePlan(w), f);
    case Rotate(k, nowMs) => PlanGrows(w, RotatePlan(w, k, nowMs), f);
    case Unlock(skip, overlap) => UnlockGrows(w, skip, overlap, f);
  }

  /** Only a new identity starts the history anew: until then keys are added in front, and none is dropped. */
  lemma {:induction false} HistoryGrows(w: World, events: seq<Event>)
    requires forall e :: e in events ==> !CreatesIdentity(e.op)
    ensures Suffix(w.activated, Run(w, events).activated)
    decreases events
  {
    hide Step;
    if events == [] {
    } else {
      assert events[0] in events;
      var w' := Step(w, events[0].op, events[0].fault);
      StepGrows(w, events[0].op, events[0].fault);
      HistoryGrows(w', events[1..]);
      hide Suffix;
      SuffixTrans(w.activated, w'.activated, Run(w', events[1..]).activated);
    }
  }

  // ---- what is lost, and what comes back ----------------------------------------------------------

  /** The first write of a rotation is reached. */
  predicate Retires(w: World, f: Fault) {
    w.state.Unlocked? && w.disk.secret.Some? && (f.NoFault? || f.at >= 7)
  }

  /** A rotation ran in the tail of an unlock, and the tail then saved the old envelope again. */
  predicate SavesOverRotation(w: World, op: Op, f: Fault) {
    && op.Unlock? && op.overlap.RotatesMeanwhile?
    && w.disk.active.Some? && w.disk.active.value.heavy && (f.NoFault? || f.at > 6)
  }

  predicate DeletesKeys(op: Op) {
    op.Wipe? || (op.Unlock? && op.overlap.WipesMeanwhile?)
  }

  lemma PureLosesNothing(w: World, plan: Plan, f: Fault)
    requires forall i :: 0 <= i < |plan.calls| ==> plan.calls[i] == Pure
    ensures var w' := Perform(w, plan, f);
            w'.disk == w.disk && w'.activated == w.activated && w'.deleted == w.deleted && w'.overwritten == w.overwritten
  {
    forall n | 0 <= n <= |plan.calls| ensures After(w, plan.calls, n) == w {
      AfterPure(w, plan.calls, n);
    }
  }

  lemma WipeCalls(w: World)
    ensures var calls := WipePlan(w).calls;
            && After(w, calls, 0) == w
            && After(w, calls, 1) == Effect(w, DeleteActive)
            && After(w, calls, 2) == Effect(Effect(w, DeleteActive), DeleteRetired)
            && After(w, calls, 3) == Effect(Effect(Effect(w, DeleteActive), DeleteRetired), DeleteSecret)
            && After(w, calls, 4) == After(w, calls, 3)
  {
  }

  lemma WipeOnlyDeletes(w: World, f: Fault)
    ensures var w' := Perform(w, WipePlan(w), f); w.deleted <= w'.deleted && w'.overwritten == w.overwritten
  {
    WipeCalls(w);
    hide After, RetainedKeys, Uncovered;
  }

  lemma RotateCalls(w: World, k: Key, nowMs: int)
    requires w.state.Unlocked? && w.disk.secret.Some?
    ensures var calls := RotatePlan(w, k, nowMs).calls;
            && |calls| == 8
            && (forall n :: 0 <= n <= 6 ==> After(w, calls, n) == w)
            && After(w, calls, 7) == Effect(w, calls[6])
            && After(w, calls, 8) == Effect(Effect(w, calls[6]), calls[7])
  {
    var calls := RotatePlan(w, k, nowMs).calls;
    forall n | 0 <= n <= 6 ensures After(w, calls, n) == w {
      AfterPure(w, calls, n);
    }
    assert After(w, calls, 7) == Effect(After(w, calls, 6), calls[6]);
    assert After(w, calls, 8) == Effect(After(w, calls, 7), calls[7]);
    hide Effect;
  }

  /** What the two writes of a rotation do to the history. */
  lemma RotateHistory(w: World, k: Key, nowMs: int)
    requires Inv(w) && w.state.Unlocked? && w.disk.secret.Some? && FreshKey(w, k)
    ensures var calls, i := RotatePlan(w, k, nowMs).calls, w.state.identity;
            var w1 := Effect(w, calls[6]);
            var w2 := Effect(w1, calls[7]);
            && w1.deleted == w2.deleted == w.deleted - {i} && w1.overwritten == w2.overwritten == w.overwritten - {i}
            && w1.activated == w.activated && w2.activated == [k] + w.activated
            && w1.disk.secret == w2.disk.secret == w.disk.secret
  {
    RetainedNow(w, nowMs);
    RetainEffect(w, nowMs);
    FrontIsDistinct(w.state.identity, w.kept);
    var w1 := Effect(w, RotatePlan(w, k, nowMs).calls[6]);
    assert w1.activated == w.activated && w1.disk.secret == w.disk.secret;
    hide PrependRetired, Dedupe, RetainedUnder, Keep, Front, NotHeld;
    ActivateEffect(w1, w.state.identity, k, w.disk.secret.value);
  }

  /** A rotation takes its identity off the lost keys as soon as it is retained, and loses none. */
  lemma RotateLost(w: World, k: Key, nowMs: int, f: Fault)
    requires Inv(w) && FreshKey(w, k)
    ensures var w' := Perform(w, RotatePlan(w, k, nowMs), f);
            var back := if Retires(w, f) then {w.state.identity} else {};
            && w'.deleted == w.deleted - back && w'.overwritten == w.overwritten - back && w'.disk.secret == w.disk.secret
            && (Retires(w, f) && (f.NoFault? || f.at >= 8) ==> w'.activated == [k] + w.activated)
  {
    hide Inv, FreshKey, Effect;
    var plan := RotatePlan(w, k, nowMs);
    if w.state.Unlocked? && w.disk.secret.Some? {
      RotateCalls(w, k, nowMs);
      RotateHistory(w, k, nowMs);
      hide RotatePlan, After;
    } else {
      PureLosesNothing(w, plan, f);
    }
  }

  lemma TailLost(w: World, wrapped: Wrapped, overlap: Overlap, f: Fault)
    requires Inv(w) && w.state.Unlocked? && w.disk.active == Some(wrapped) && w.state.identity == wrapped.key
    requires overlap.RotatesMeanwhile? ==> FreshKey(w, overlap.newKey)
    ensures var w' := Tail(w, wrapped, wrapped.secret, overlap, f);
            && (if overlap.WipesMeanwhile? then w.deleted <= w'.deleted
                else w'.deleted == w.deleted && w'.disk.secret == w.disk.secret)
            && w'.overwritten == w.overwritten + (if overlap.RotatesMeanwhile? && wrapped.heavy && (f.NoFault? || f.at > 6)
                                                  then {overlap.newKey} else {})
            && (overlap.RotatesMeanwhile? && !(f.Crash? && f.at < 6) ==> w'.activated == [overlap.newKey] + w.activated)
  {
    hide Inv, Effect, FreshKey, Overlapped;
    OverlapLost(w, wrapped, overlap);
    if overlap.Quiet? || overlap.RotatesMeanwhile? {
      SavedAgain(w, wrapped, overlap);
    }
  }

  /** What runs during the tail loses nothing, but for a wipe. */
  lemma OverlapLost(w: World, wrapped: Wrapped, overlap: Overlap)
    requires Inv(w) && w.state.Unlocked? && w.disk.active == Some(wrapped) && w.state.identity == wrapped.key
    requires overlap.RotatesMeanwhile? ==> FreshKey(w, overlap.newKey)
    ensures var w2 := Overlapped(w, overlap);
            && (if overlap.WipesMeanwhile? then w.deleted <= w2.deleted
                else w2.deleted == w.deleted && w2.disk.secret == w.disk.secret)
            && w2.overwritten == w.overwritten && (w2.state.Unlocked? <==> overlap.Quiet? || overlap.RotatesMeanwhile?)
            && (overlap.RotatesMeanwhile? ==> w2.activated == [overlap.newKey] + w.activated)
  {
    match overlap
    case Quiet =>
    case LocksMeanwhile =>
    case WipesMeanwhile => WipeOnlyDeletes(w, NoFault);
    case RotatesMeanwhile(k, nowMs) => {
      RotateLost(w, k, nowMs, NoFault);
      RotatedInPlace(w, k, nowMs);
      hide Perform, Inv, FreshKey, Front;
      assert wrapped.key !in Lost(w) by {
        ActiveIsNotLost(w);
      }
    }
  }

  lemma ActiveIsNotLost(w: World)
    requires Inv(w) && w.disk.active.Some?
    ensures w.disk.active.value.key !in Lost(w)
  {
    hide MemInv;
  }

  /** The save of the tail: over a rotation it overwrites the new key. */
  lemma SavedAgain(w: World, wrapped: Wrapped, overlap: Overlap)
    requires Inv(w) && w.state.Unlocked? && w.disk.active == Some(wrapped) && w.state.identity == wrapped.key
    requires overlap.Quiet? || (overlap.RotatesMeanwhile? && FreshKey(w, overlap.newKey))
    ensures var w2 := Overlapped(w, overlap);
            var w3 := Effect(w2, SaveActive(Wrapped(wrapped.key, wrapped.secret, false)));
            && w3.state == w2.state && w3.deleted == w2.deleted && w3.disk.secret == w2.disk.secret
            && w3.overwritten == w2.overwritten + (if overlap.Quiet? then {} else {overlap.newKey})
            && w3.activated == w2.activated
  {
    var again := Wrapped(wrapped.key, wrapped.secret, false);
    if overlap.RotatesMeanwhile? {
      var k, nowMs := overlap.newKey, overlap.nowMs;
      RotatedInPlace(w, k, nowMs);
      FrontIsDistinct(wrapped.key, w.kept);
      hide Perform, Effect, Inv, FreshKey, Front;
      SavedOver(Perform(w, RotatePlan(w, k, nowMs), NoFault), again, k);
    } else {
      RewrapEffect(w, again);
      hide Effect, Inv;
    }
  }

  /** The save that follows a rotation: only the new key is overwritten. */
  lemma SavedOver(w: World, again: Wrapped, k: Key)
    requires Inv(w) && w.disk.active.Some? && w.disk.active.value.key == k && again.key in w.kept && again.key !in w.deleted
    requires w.disk.secret.Some? && k !in w.kept
    ensures var w' := Effect(w, SaveActive(again));
            && w'.deleted == w.deleted && w'.overwritten == w.overwritten + {k} && w'.activated == w.activated
            && w'.disk.secret == w.disk.secret && w'.state == w.state
  {
    KeepMembers(w.kept, w.deleted);
    hide RetainedUnder, Keep, MemInv;
  }

  lemma UnlockLost(w: World, skip: set<Key>, overlap: Overlap, f: Fault)
    requires Inv(w) && ValidOp(w, Unlock(skip, overlap))
    ensures var w', op := UnlockStep(w, skip, overlap, f), Unlock(skip, overlap);
            && (if overlap.WipesMeanwhile? then w.deleted <= w'.deleted
                else w'.deleted == w.deleted && w'.disk.secret == w.disk.secret)
            && w'.overwritten == w.overwritten + (if SavesOverRotation(w, op, f) then {overlap.newKey} else {})
  {
    hide Tail, Perform, Finish, Inv, FreshKey, Rebuild, Keep;
    var plan := UnlockPlan(w, skip);
    UnlockReads(w, skip);
    PureLosesNothing(w, plan, f);
    if w.disk.active.Some? {
      UnlockOpens(w, skip);
      var w1 := Finish(w, plan).(skipped := skip - {plan.done.value.identity}, purged := {});
      AnotherSession(w, w1, overlap);
      if f.NoFault? || f.at >= |plan.calls| {
        TailLost(w1, w.disk.active.value, overlap, f);
      }
    }
  }

  /** A fresh key is fresh for the session that an unlock starts. */
  lemma AnotherSession(w: World, w1: World, overlap: Overlap)
    requires w1.activated == w.activated && w1.deleted == w.deleted && w1.overwritten == w.overwritten && w1.disk == w.disk
    requires overlap.RotatesMeanwhile? ==> FreshKey(w, overlap.newKey) && overlap.newKey !in w1.skipped
    ensures overlap.RotatesMeanwhile? ==> FreshKey(w1, overlap.newKey)
  {
  }

  /** What one operation does to the deleted and the overwritten keys. */
  lemma StepLost(w: World, op: Op, f: Fault)
    requires Inv(w) && ValidOp(w, op) && !CreatesIdentity(op)
    ensures var w' := Step(w, op, f);
            var back := if op.Rotate? && Retires(w, f) then {w.state.identity} else {};
            && (if DeletesKeys(op) then w.deleted <= w'.deleted
                else w'.deleted == w.deleted - back && w'.disk.secret == w.disk.secret)
            && w'.overwritten == w.overwritten - back + (if SavesOverRotation(w, op, f) then {op.overlap.newKey} else {})
  {
    hide Inv, FreshKey, Perform, UnlockStep;
    match op
    case Init => PureLosesNothing(w, InitPlan(w), f);
    case Lock =>
    case Wipe => WipeOnlyDeletes(w, f);
    case Rotate(k, nowMs) => RotateLost(w, k, nowMs, f);
    case Unlock(skip, overlap) => UnlockLost(w, skip, overlap, f);
  }

  /** A key is overwritten exactly when the tail of an unlock saves the old envelope over a rotation that gave it out. */
  lemma OverwrittenExactlyByTail(w: World, op: Op, f: Fault)
    requires Reachable(w) && ValidOp(w, op) && !CreatesIdentity(op)
    ensures Step(w, op, f).overwritten - w.overwritten == if SavesOverRotation(w, op, f) then {op.overlap.newKey} else {}
  {
    ReachableInv(w);
    StepLost(w, op, f);
    hide Inv, Step;
  }

  /** A lost key comes back exactly when a later rotation retires it from memory, and then it is on disk again. */
  lemma RestoredExactlyByRotation(w: World, op: Op, f: Fault)
    requires Reachable(w) && ValidOp(w, op) && !CreatesIdentity(op)
    ensures Lost(w) - Lost(Step(w, op, f)) == if op.Rotate? && Retires(w, f) then Lost(w) * {w.state.identity} else {}
    ensures op.Rotate? && Retires(w, f) ==> Recoverable(Step(w, op, f).disk, w.state.identity)
  {
    ReachableInv(w);
    StepLost(w, op, f);
    StepKeepsInv(w, op, f);
    StepGrows(w, op, f);
    if op.Rotate? && Retires(w, f) {
      RecoverableUnlessLost(Step(w, op, f), w.state.identity);
      SuffixMembers(w.activated, Step(w, op, f).activated);
      assert w.state.identity in w.activated;
    }
    hide Inv, Step, Recoverable;
  }

  lemma SuffixMembers(a: seq<Key>, b: seq<Key>)
    requires Suffix(a, b)
    ensures forall k :: k in a ==> k in b
  {
    assert forall k :: k in b[|b| - |a|..] ==> k in b;
  }

  // ---- what stays, and what stays lost ------------------------------------------------------------

  /** Both writes of a rotation keep every key that could be recovered before. */
  lemma RotateLosesNothing(w: World, k: Key, nowMs: int, f: Fault, x: Key)
    requires Inv(w) && Recoverable(w.disk, x)
    ensures Recoverable(Perform(w, RotatePlan(w, k, nowMs), f).disk, x)
  {
    hide Recoverable, RetainedUnder, Keep, Inv, PrependRetired, Dedupe, RetireEntry, Uncovered;
    if w.state.Unlocked? && w.disk.secret.Some? {
      var calls := RotatePlan(w, k, nowMs).calls;
      RetiredInTime(w, nowMs, x);
      RotateCalls(w, k, nowMs);
      hide After;
      RetainedIsRecoverable(Effect(w, calls[6]).disk, x);
      RetainedIsRecoverable(Effect(Effect(w, calls[6]), calls[7]).disk, x);
    } else {
      PureLosesNothing(w, RotatePlan(w, k, nowMs), f);
    }
  }

  /** After the first write everything on disk is retained. */
  lemma RetiredInTime(w: World, nowMs: int, x: Key)
    requires Inv(w) && w.state.Unlocked? && w.disk.secret.Some? && Recoverable(w.disk, x)
    ensures var e := RetireEntry(w.state.identity, w.disk.secret.value, nowMs);
            x in RetainedUnder(PrependRetired(LoadRetired(w.disk), e), w.disk.secret)
  {
    hide Recoverable, RetainedUnder, Keep, Inv, PrependRetired, Dedupe;
    RetainedOrIdentity(w, x);
    RetainedNow(w, nowMs);
    KeepMembers(RetainedUnder(w.disk.retired, w.disk.secret), {w.state.identity});
  }

  lemma RetainedOrIdentity(w: World, x: Key)
    requires Inv(w) && w.state.Unlocked? && Recoverable(w.disk, x)
    ensures x in RetainedUnder(w.disk.retired, w.disk.secret) || x == w.state.identity
  {
    RecoverableIsListed(w, x);
    KeepMembers(w.kept, w.deleted);
    hide Recoverable, RetainedUnder, Keep, NotHeld;
  }

  lemma RetainedIsRecoverable(disk: Disk, x: Key)
    requires x in RetainedUnder(disk.retired, disk.secret)
    ensures Recoverable(disk, x)
  {
    KeysUnderMembers(LoadRetired(disk), disk.secret.value);
    hide KeysUnder, Dedupe;
  }

  lemma StepLosesNothing(w: World, op: Op, f: Fault, x: Key)
    requires Inv(w) && ValidOp(w, op) && !CreatesIdentity(op) && !DeletesKeys(op) && Recoverable(w.disk, x)
    ensures Recoverable(Step(w, op, f).disk, x)
  {
    var w' := Step(w, op, f);
    StepLost(w, op, f);
    StepKeepsInv(w, op, f);
    StepGrows(w, op, f);
    SuffixMembers(w.activated, w'.activated);
    RecoverableUnlessLost(w, x);
    RecoverableUnlessLost(w', x);
    hide Inv, Step, Recoverable;
  }

  /** Between two wipes or new identities, what could be recovered once can be recovered ever after. */
  lemma {:induction false} NothingLostWithoutWipe(w: World, events: seq<Event>, x: Key)
    requires Inv(w) && ValidRun(w, events) && Recoverable(w.disk, x)
    requires forall e :: e in events ==> !CreatesIdentity(e.op) && !DeletesKeys(e.op)
    ensures Recoverable(Run(w, events).disk, x)
    decreases events
  {
    hide Inv, Step, ValidOp, Recoverable;
    if events != [] {
      assert events[0] in events;
      StepKeepsInv(w, events[0].op, events[0].fault);
      StepLosesNothing(w, events[0].op, events[0].fault, x);
      NothingLostWithoutWipe(Step(w, events[0].op, events[0].fault), events[1..], x);
    }
  }

  /** The key is lost, and no session that could still retire it has it as its identity. */
  ghost predicate Gone(w: World, x: Key) {
    x in Lost(w) && !(w.state.Unlocked? && w.state.identity == x)
  }

  /** A session's identity is what was active at its unlock, or what was generated since. */
  lemma StepIdentity(w: World, op: Op, f: Fault)
    requires Inv(w) && ValidOp(w, op) && !CreatesIdentity(op) && Step(w, op, f).state.Unlocked?
    ensures var k := Step(w, op, f).state.identity;
            || (w.state.Unlocked? && k == w.state.identity)
            || (w.disk.active.Some? && k == w.disk.active.value.key)
            || FreshKey(w, k)
  {
    hide FreshKey, DiskInv, Effect, RetireEntry, PrependRetired, Dedupe, Rebuild, Keep;
    match op
    case Init => CallsKeepState(w, InitPlan(w).calls);
    case Lock =>
    case Wipe => CallsKeepState(w, WipePlan(w).calls);
    case Rotate(k, nowMs) => CallsKeepState(w, RotatePlan(w, k, nowMs).calls);
    case Unlock(skip, overlap) => UnlockIdentity(w, skip, overlap, f);
  }

  lemma CallsKeepState(w: World, calls: seq<Call>)
    ensures forall n :: 0 <= n <= |calls| ==> After(w, calls, n).state == w.state
  {
    forall n | 0 <= n <= |calls| ensures After(w, calls, n).state == w.state {
      StateAfter(w, calls, n);
    }
  }

  lemma {:induction false} StateAfter(w: World, calls: seq<Call>, n: nat)
    requires n <= |calls|
    ensures After(w, calls, n).state == w.state
  {
    hide RetainedKeys, Uncovered, RetainedUnder, Front;
    if n > 0 {
      StateAfter(w, calls, n - 1);
    }
  }

  lemma UnlockIdentity(w: World, skip: set<Key>, overlap: Overlap, f: Fault)
    requires ValidOp(w, Unlock(skip, overlap)) && UnlockStep(w, skip, overlap, f).state.Unlocked?
    ensures var k := UnlockStep(w, skip, overlap, f).state.identity;
            || (w.state.Unlocked? && k == w.state.identity)
            || (w.disk.active.Some? && k == w.disk.active.value.key)
            || FreshKey(w, k)
  {
    var plan := UnlockPlan(w, skip);
    CallsKeepState(w, plan.calls);
    if plan.done.Some? && plan.done.value.Unlocked? && (f.NoFault? || f.at >= |plan.calls|) {
      var w1 := Finish(w, plan).(skipped := skip - {plan.done.value.identity}, purged := {});
      TailIdentity(w1, w.disk.active.value, w.disk.secret.value, overlap, f);
    }
    hide FreshKey, After, Tail, Rebuild, Keep;
  }

  lemma TailIdentity(w: World, wrapped: Wrapped, secret: Secret, overlap: Overlap, f: Fault)
    requires w.state.Unlocked? && Tail(w, wrapped, secret, overlap, f).state.Unlocked?
    ensures var k := Tail(w, wrapped, secret, overlap, f).state.identity;
            k == w.state.identity || (overlap.RotatesMeanwhile? && k == overlap.newKey)
  {
    if overlap.WipesMeanwhile? {
      CallsKeepState(w, WipePlan(w).calls);
    } else if overlap.RotatesMeanwhile? {
      CallsKeepState(w, RotatePlan(w, overlap.newKey, overlap.nowMs).calls);
    }
    hide After, RetainedKeys, Uncovered, PrependRetired, Dedupe;
  }

  lemma StepKeepsGone(w: World, op: Op, f: Fault, x: Key)
    requires Inv(w) && ValidOp(w, op) && !CreatesIdentity(op) && Gone(w, x)
    ensures Gone(Step(w, op, f), x)
  {
    StepLost(w, op, f);
    if Step(w, op, f).state.Unlocked? {
      StepIdentity(w, op, f);
    }
    hide Step, MemInv;
  }

  /** A lost key that is no session's identity never comes back: no run without a new identity writes it again. */
  lemma {:induction false} LostForGood(w: World, events: seq<Event>, x: Key)
    requires Inv(w) && ValidRun(w, events) && Gone(w, x)
    requires forall e :: e in events ==> !CreatesIdentity(e.op)
    ensures Gone(Run(w, events), x) && !Recoverable(Run(w, events).disk, x)
    decreases events
  {
    hide Inv, Step, ValidOp, Recoverable;
    if events == [] {
      if w.disk.secret.Some? {
        RecoverableUnlessLost(w, x);
      }
      assert w.disk.secret.None? ==> !Recoverable(w.disk, x) by {
        NoSecretNoKey(w.disk, x);
      }
    } else {
      assert events[0] in events;
      StepKeepsInv(w, events[0].op, events[0].fault);
      StepKeepsGone(w, events[0].op, events[0].fault, x);
      LostForGood(Step(w, events[0].op, events[0].fault), events[1..], x);
    }
  }

  lemma NoSecretNoKey(disk: Disk, x: Key)
    ensures Recoverable(disk, x) ==> disk.secret.Some?
  {
  }
}
