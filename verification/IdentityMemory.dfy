/** What an unlocked session holds against what is on disk: which messages open, and where memory and disk part. */
module IdentityMemory {
  import opened Bytes
  import opened DecryptKeys
  import opened Identity
  import opened IdentityBundle
  import opened IdentityLaws
  import opened IdentityRuns
  import opened Order

  // ---- messages -----------------------------------------------------------------------------------

  /** The session's identity, or a retired key that its unlock did not skip and no wipe had deleted before. */
  predicate Holds(w: World, k: Key)
    requires w.state.Unlocked?
  {
    k == w.state.identity || (k !in w.skipped && (k in w.deleted ==> k in w.purged) && k !in w.overwritten)
  }

  lemma HeldKeys(w: World)
    requires Inv(w) && w.state.Unlocked?
    ensures forall k :: k in AllPrivateKeysForDecrypt(w.state) <==> k in w.activated && Holds(w, k)
  {
    KeepMembers(w.kept, NotHeld(w) + {w.state.identity});
    hide Keep, DiskInv;
  }

  /** In every unlocked state a message to a key of the history opens exactly when the session holds the key. */
  lemma EveryMessageOpens<T>(w: World, sealedTo: Key, m: T)
    requires Reachable(w) && w.state.Unlocked? && sealedTo in w.activated
    ensures Fallback(AllPrivateKeysForDecrypt(w.state), OpenWith(sealedTo, m), DEFAULT_REASON) == Opened(m)
            <==> Holds(w, sealedTo)
  {
    ReachableInv(w);
    HeldKeys(w);
    OpensIffHeld(AllPrivateKeysForDecrypt(w.state), sealedTo, m);
  }

  // ---- memory refines disk ------------------------------------------------------------------------

  /** `lock` and then an undisturbed `unlock`. */
  function Relocked(w: World): World {
    Step(Step(w, Lock, NoFault), Unlock({}, Quiet), NoFault)
  }

  lemma UndisturbedUnlock(w: World)
    requires Inv(w)
    ensures var w' := Step(w, Unlock({}, Quiet), NoFault);
            if w.disk.active.None? then w'.state == NoIdentity
            else
              var a := w.disk.active.value;
              w'.state == Unlocked(a.key, a.key, Rebuild(w.disk.retired, a.secret, a.key))
  {
    var plan := UnlockPlan(w, {});
    AfterPure(w, plan.calls, |plan.calls|);
    if w.disk.active.Some? {
      UnlockOpens(w, {});
      KeepAll(Rebuild(w.disk.retired, w.disk.active.value.secret, w.disk.active.value.key), {});
    }
    hide Inv, Rebuild, Keep, Uncovered, RetainedKeys;
  }

  /**
   * An unlock succeeds exactly while an identity is stored. It rebuilds the stored key and the same list in order, but for
   * the two active keys, for what this session skipped and for what it saw deleted; memory and disk agree exactly when
   * the two are one and there is neither.
   */
  lemma MemoryRefinesDisk(w: World)
    requires Reachable(w) && w.state.Unlocked?
    ensures Relocked(w).state.Unlocked? <==> w.disk.active.Some?
    ensures Relocked(w).state.Unlocked? ==>
              var after := Relocked(w).state;
              && after.identity == w.disk.active.value.key
              && Keep(w.state.retiredKeys, w.purged + {after.identity})
                 == Keep(after.retiredKeys, w.skipped + {w.state.identity})
              && (after == w.state <==>
                    && after.identity == w.state.identity
                    && (forall k :: k in w.state.retiredKeys ==> k !in w.purged)
                    && (forall k :: k in after.retiredKeys ==> k !in w.skipped))
    ensures Distinct(AllPrivateKeysForDecrypt(w.state))
  {
    ReachableInv(w);
    var locked := Step(w, Lock, NoFault);
    StateDropped(w);
    UndisturbedUnlock(locked);
    MemoryIsDistinct(w);
    if w.disk.active.Some? {
      MemoryAgainstDisk(w);
    }
    hide Inv, Rebuild, Keep, Reachable;
  }

  lemma MemoryIsDistinct(w: World)
    requires Inv(w) && w.state.Unlocked?
    ensures Distinct(AllPrivateKeysForDecrypt(w.state))
  {
    var k := w.state.identity;
    KeepMembers(w.kept, NotHeld(w) + {k});
    DistinctCons(k, Keep(w.kept, NotHeld(w) + {k}));
  }

  /** The list an unlock finds, out of the retired keys. */
  lemma StoredList(w: World)
    requires Inv(w) && w.disk.active.Some?
    ensures var a := w.disk.active.value; Rebuild(w.disk.retired, a.secret, a.key) == Keep(w.kept, w.deleted + {a.key})
  {
    var a := w.disk.active.value;
    RebuildIsRetained(w.disk.retired, a.secret, a.key);
    KeepTwice(w.kept, w.deleted, {a.key});
  }

  lemma MemoryAgainstDisk(w: World)
    requires Inv(w) && w.state.Unlocked? && w.disk.active.Some?
    ensures var a, i, held := w.disk.active.value, w.state.identity, w.state.retiredKeys;
            var stored := Rebuild(w.disk.retired, a.secret, a.key);
            && Keep(held, w.purged + {a.key}) == Keep(stored, w.skipped + {i})
            && (a.key == i ==>
                  (held == stored <==>
                     (forall k :: k in held ==> k !in w.purged) && (forall k :: k in stored ==> k !in w.skipped)))
  {
    StoredList(w);
    TwoLists(w.kept, w.skipped, w.deleted, w.purged, w.state.identity, w.disk.active.value.key);
  }

  lemma TwoLists(keys: seq<Key>, skipped: set<Key>, deleted: set<Key>, purged: set<Key>, i: Key, a: Key)
    requires purged <= deleted
    ensures var held, stored := Keep(keys, skipped + (deleted - purged) + {i}), Keep(keys, deleted + {a});
            && Keep(held, purged + {a}) == Keep(stored, skipped + {i})
            && (a == i ==>
                  (held == stored <==>
                     (forall k :: k in held ==> k !in purged) && (forall k :: k in stored ==> k !in skipped)))
  {
    var notHeld := skipped + (deleted - purged) + {i};
    var held, stored := Keep(keys, notHeld), Keep(keys, deleted + {a});
    KeepTwice(keys, notHeld, purged + {a});
    KeepTwice(keys, deleted + {a}, skipped + {i});
    assert notHeld + (purged + {a}) == (deleted + {a}) + (skipped + {i});
    KeepMembers(keys, notHeld);
    KeepMembers(keys, deleted + {a});
    KeepAll(held, purged + {a});
    KeepAll(stored, skipped + {i});
  }

  /** Every key in memory is of the history that began with the stored secret; those not purged are under it on disk. */
  lemma NoForeignKey(w: World, k: Key)
    requires Reachable(w) && w.state.Unlocked? && k in AllPrivateKeysForDecrypt(w.state)
    ensures k in w.activated
    ensures w.disk.secret.Some? && k != w.state.identity && k !in w.purged ==>
              exists e :: e in w.disk.retired && e.publicKey == k && e.wrapped.secret == w.disk.secret.value
  {
    ReachableInv(w);
    HeldKeys(w);
    if w.disk.secret.Some? && k != w.state.identity && k !in w.purged {
      KeepMembers(w.kept, w.deleted);
      KeepMembers(w.kept, NotHeld(w) + {w.state.identity});
      OnDisk(w.disk.retired, w.disk.secret.value, k);
      hide RetainedUnder, Keep, Reachable;
    }
  }

  lemma OnDisk(retired: seq<RetiredEntry>, s: Secret, k: Key)
    requires Consistent(retired) && k in RetainedUnder(retired, Some(s))
    ensures exists e :: e in retired && e.publicKey == k && e.wrapped.secret == s
  {
    KeysUnderMembers(Dedupe(retired), s);
    DedupeMembers(retired);
    hide KeysUnder, Dedupe;
  }

  // ---- where it ends ------------------------------------------------------------------------------

  lemma EffectPurge(w: World, c: Call)
    requires !c.DeleteRetired?
    ensures Effect(w, c).purged <= w.purged
  {
    hide RetainedKeys, Uncovered, RetainedUnder, Front;
  }

  lemma {:induction false} NoDeletePurge(w: World, calls: seq<Call>, n: nat)
    requires n <= |calls| && forall i :: 0 <= i < n ==> !calls[i].DeleteRetired?
    ensures After(w, calls, n).purged <= w.purged
  {
    hide Effect;
    if n > 0 {
      NoDeletePurge(w, calls, n - 1);
      EffectPurge(After(w, calls, n - 1), calls[n - 1]);
    }
  }

  lemma PersistPurge(w: World, plan: Plan, f: Fault)
    requires forall i :: 0 <= i < |plan.calls| ==> !plan.calls[i].DeleteRetired?
    ensures Perform(w, plan, f).purged <= w.purged
  {
    forall n | 0 <= n <= |plan.calls| ensures After(w, plan.calls, n).purged <= w.purged {
      NoDeletePurge(w, plan.calls, n);
    }
  }

  lemma TailPurge(w: World, wrapped: Wrapped, secret: Secret, overlap: Overlap, f: Fault)
    requires w.purged == {} && Tail(w, wrapped, secret, overlap, f).state.Unlocked?
    ensures Tail(w, wrapped, secret, overlap, f).purged == {}
  {
    var w2, save := Overlapped(w, overlap), SaveActive(Wrapped(wrapped.key, secret, false));
    match overlap {
      case Quiet =>
      case LocksMeanwhile =>
      case WipesMeanwhile =>
      case RotatesMeanwhile(k, nowMs) => PersistPurge(w, RotatePlan(w, k, nowMs), NoFault);
    }
    EffectPurge(w2, save);
    assert Effect(w2, save).state == w2.state;
    hide Overlapped, Effect;
  }

  lemma UnlockPurge(w: World, skip: set<Key>, overlap: Overlap, f: Fault)
    requires w.purged == {} && UnlockStep(w, skip, overlap, f).state.Unlocked?
    ensures UnlockStep(w, skip, overlap, f).purged == {}
  {
    var plan := UnlockPlan(w, skip);
    PersistPurge(w, plan, f);
    if plan.done.Some? && plan.done.value.Unlocked? && (f.NoFault? || f.at >= |plan.calls|) {
      var w1 := Finish(w, plan).(skipped := skip - {plan.done.value.identity}, purged := {});
      TailPurge(w1, w.disk.active.value, w.disk.secret.value, overlap, f);
    }
    hide Tail, Perform, Rebuild, Keep;
  }

  lemma WipePurge(w: World, f: Fault)
    requires w.purged == {}
    ensures var w' := Perform(w, WipePlan(w), f);
            w'.state.Unlocked? && w'.purged != {} <==>
            w.state.Unlocked? && RetainedKeys(w) != {} && (f == Fail(2) || f == Fail(3))
  {
    WipeCalls(w);
    hide After, Uncovered, RetainedUnder;
  }

  /**
   * A session that is still unlocked has seen retired keys deleted exactly after a wipe that deleted a retired blob with
   * keys in it and then failed.
   */
  lemma PurgedExactlyByWipe(w: World, op: Op, f: Fault)
    requires Reachable(w) && ValidOp(w, op) && w.purged == {}
    ensures Step(w, op, f).state.Unlocked? && Step(w, op, f).purged != {} <==>
            op.Wipe? && w.state.Unlocked? && RetainedKeys(w) != {} && (f == Fail(2) || f == Fail(3))
  {
    hide Perform, UnlockStep, Reachable, ValidOp, RetainedKeys;
    match op
    case Init => PersistPurge(w, InitPlan(w), f);
    case SetupNew(k, s) => PersistPurge(NewSession(w), SetupPlan(w, k, s), f);
    case Import(k, s) => PersistPurge(NewSession(w), ImportPlan(w, k, s), f);
    case Lock =>
    case Rotate(k, nowMs) => PersistPurge(w, RotatePlan(w, k, nowMs), f);
    case Unlock(skip, overlap) => {
      if UnlockStep(w, skip, overlap, f).state.Unlocked? {
        UnlockPurge(w, skip, overlap, f);
      }
    }
    case Wipe => WipePurge(w, f);
  }

  lemma FailedWipe(w: World)
    requires Inv(w) && w.state.Unlocked? && w.disk.secret.Some?
    ensures var w1 := Step(w, Wipe, Fail(2));
            && w1.state == w.state && w1.disk == Disk(None, [], w.disk.secret) && w1.activated == w.activated
            && Inv(w1) && forall k :: FreshKey(w, k) ==> FreshKey(w1, k)
  {
    hide RetainedUnder, Keep, After;
    WipeCalls(w);
    WipeKeeps(w, Fail(2));
    KeepMembers(w.kept, w.deleted);
    assert RetainedKeys(Effect(w, DeleteActive)) == RetainedKeys(w);
    OnlyOwnKeys(w);
    hide Inv, Uncovered, RetainedKeys;
  }

  /** Everything a wipe can delete is of the history. */
  lemma OnlyOwnKeys(w: World)
    requires Inv(w) && w.disk.secret.Some?
    ensures forall x :: x in RetainedKeys(w) + Uncovered(w) ==> x in w.activated
  {
    KeepMembers(w.kept, w.deleted);
    hide RetainedUnder, Keep, MemInv;
  }

  lemma RotateCompletes(w: World, k: Key, nowMs: int)
    requires w.state.Unlocked? && w.disk.secret.Some?
    ensures var plan := RotatePlan(w, k, nowMs);
            Step(w, Rotate(k, nowMs), NoFault)
            == Effect(Effect(w, plan.calls[6]), plan.calls[7]).(state := plan.done.value)
  {
    RotateCalls(w, k, nowMs);
    hide Effect, After;
  }

  /**
   * A rotation after a wipe that failed behind the retired blob writes the identity back, but disk then holds only
   * the key retired last: memory and disk part whenever the session held retired keys.
   */
  lemma RotateAfterFailedWipe(w: World, k: Key, nowMs: int)
    requires Inv(w) && w.state.Unlocked? && w.disk.secret.Some? && FreshKey(w, k)
    ensures var w2 := Step(Step(w, Wipe, Fail(2)), Rotate(k, nowMs), NoFault);
            && w2.state == Unlocked(k, k, [w.state.identity] + w.state.retiredKeys)
            && Relocked(w2).state == Unlocked(k, k, [w.state.identity])
            && (Relocked(w2).state == w2.state <==> w.state.retiredKeys == [])
  {
    var w1 := Step(w, Wipe, Fail(2));
    FailedWipe(w);
    RotateCompletes(w1, k, nowMs);
    var w2 := Step(w1, Rotate(k, nowMs), NoFault);
    StillConsistent(w1, k, nowMs);
    UndisturbedUnlock(Step(w2, Lock, NoFault));
    var e := RetireEntry(w.state.identity, w.disk.secret.value, nowMs);
    OnlyRetired(e, k);
  }

  lemma StillConsistent(w1: World, k: Key, nowMs: int)
    requires w1.state.Unlocked? && w1.disk.secret.Some? && w1.disk.retired == [] && Inv(w1) && FreshKey(w1, k)
    ensures Inv(Step(Step(w1, Rotate(k, nowMs), NoFault), Lock, NoFault))
  {
    StepKeepsInv(w1, Rotate(k, nowMs), NoFault);
    StateDropped(Step(w1, Rotate(k, nowMs), NoFault));
    hide Inv, Perform;
  }

  lemma OnlyRetired(e: RetiredEntry, k: Key)
    requires e.publicKey == e.wrapped.key != k
    ensures Rebuild(PrependRetired(Dedupe([]), e), e.wrapped.secret, k) == [e.publicKey]
  {
    assert [e] + [] == [e];
    SingleEntry(e, k);
  }

  lemma SingleEntry(e: RetiredEntry, k: Key)
    requires e.publicKey == e.wrapped.key != k
    ensures Dedupe([e]) == [e] && Rebuild([e], e.wrapped.secret, k) == [e.publicKey]
    ensures RetainedUnder([e], Some(e.wrapped.secret)) == [e.publicKey]
  {
    assert [e][1..] == [];
    assert Dedupe([e]) == [e] && Without([e], {k}) == [e];
    assert Unwrap(e.wrapped, e.wrapped.secret) == Some(e.publicKey) && KeysUnder([], e.wrapped.secret) == [];
    assert KeysUnder([e], e.wrapped.secret) == [e.publicKey] + KeysUnder([e][1..], e.wrapped.secret);
  }

  /** A machine over a rotated identity: key 2 active, key 1 retained. */
  lemma RotatedOnce(e: RetiredEntry, heavy: bool) returns (w: World)
    requires e == RetireEntry(1, 10, 0)
    ensures Reachable(w) && w.disk == Disk(Some(Wrapped(2, 10, heavy)), [e], Some(10))
    ensures w.state == Locked && w.activated == [2, 1] && Lost(w) == {} && w.skipped == {}
  {
    var disk := Disk(Some(Wrapped(2, 10, heavy)), [e], Some(10));
    var events := [Event(Init, NoFault)];
    w := Run(Start(disk), events);
    SingleEntry(e, 2);
    assert w == Step(Start(disk), Init, NoFault) by {
      assert events[1..] == [];
    }
    AfterPure(Start(disk), [Pure], 1);
    assert ValidRun(Start(disk), events);
    KeepAll([1], {2});
    assert [2] + [1] == [2, 1];
  }

  lemma OneMoreEvent(w: World, op: Op, f: Fault)
    requires Reachable(w) && ValidOp(w, op)
    ensures Reachable(Step(w, op, f))
  {
    var disk, events :| ValidDisk(disk) && ValidRun(Start(disk), events) && w == Run(Start(disk), events);
    ExtendRun(Start(disk), events, Event(op, f));
  }

  lemma {:induction false} ExtendRun(w: World, events: seq<Event>, e: Event)
    requires ValidRun(w, events) && ValidOp(Run(w, events), e.op)
    ensures ValidRun(w, events + [e]) && Run(w, events + [e]) == Step(Run(w, events), e.op, e.fault)
    decreases events
  {
    hide Step, ValidOp;
    if events == [] {
      assert [e][1..] == [] && [] + [e] == [e];
    } else {
      assert (events + [e])[1..] == events[1..] + [e];
      ExtendRun(Step(w, events[0].op, events[0].fault), events[1..], e);
    }
  }

  /** Such a session exists: an identity that was rotated once, unlocked again. */
  lemma RotateAfterFailedWipeHappens()
    ensures exists w, k, nowMs :: Reachable(w) && w.state.Unlocked? && FreshKey(w, k)
              && Relocked(Step(Step(w, Wipe, Fail(2)), Rotate(k, nowMs), NoFault)).state
                 != Step(Step(w, Wipe, Fail(2)), Rotate(k, nowMs), NoFault).state
  {
    var e := RetireEntry(1, 10, 0);
    var w0 := RotatedOnce(e, false);
    var w := Step(w0, Unlock({}, Quiet), NoFault);
    OneMoreEvent(w0, Unlock({}, Quiet), NoFault);
    ReachableInv(w0);
    ReachableInv(w);
    UndisturbedUnlock(w0);
    UnlockLeavesDisk(w0);
    SingleEntry(e, 2);
    RotateAfterFailedWipe(w, 3, 0);
  }

  lemma UnlockLeavesDisk(w: World)
    requires w.disk.active.Some? && !w.disk.active.value.heavy && w.disk.secret == Some(w.disk.active.value.secret)
    ensures var w' := Step(w, Unlock({}, Quiet), NoFault);
            w'.disk == w.disk && w'.activated == w.activated && Lost(w') == Lost(w) && w'.skipped == {}
  {
    var plan := UnlockPlan(w, {});
    AfterPure(w, plan.calls, |plan.calls|);
  }

  // ---- a rotation during the tail of an unlock ----------------------------------------------------

  /** The unlock opened, so the rotation of its tail ran to its end, unless the process died before. */
  lemma RotatedInTail(w: World, skip: set<Key>, k: Key, nowMs: int, f: Fault)
    requires Inv(w) && w.disk.active.Some? && ValidOp(w, Unlock(skip, RotatesMeanwhile(k, nowMs)))
    requires f.NoFault? || f.at >= 4
    ensures Step(w, Unlock(skip, RotatesMeanwhile(k, nowMs)), f).activated
         == if f.Crash? && f.at < 6 then w.activated else [k] + w.activated
  {
    var plan := UnlockPlan(w, skip);
    UnlockOpens(w, skip);
    AfterPure(w, plan.calls, |plan.calls|);
    var w1 := Finish(w, plan).(skipped := skip - {plan.done.value.identity}, purged := {});
    TailLost(w1, w.disk.active.value, RotatesMeanwhile(k, nowMs), f);
    hide Overlapped, Effect, Rebuild, Keep, Inv;
  }

  /**
   * The re-check in the re-wrap tail looks at the status only. A rotation that completes while an unlock is in its tail
   * leaves its new key on disk if and only if the tail saves nothing over it: the envelope was not heavy, or the check,
   * the wrap or the save was stopped. Every key that was on disk before stays there in either case.
   */
  lemma TailOverwritesRotation(w: World, skip: set<Key>, k: Key, nowMs: int, f: Fault)
    requires Reachable(w) && w.disk.active.Some? && ValidOp(w, Unlock(skip, RotatesMeanwhile(k, nowMs)))
    requires f.NoFault? || f.at >= 4
    ensures var disk := Step(w, Unlock(skip, RotatesMeanwhile(k, nowMs)), f).disk;
            && (Recoverable(disk, k) <==> !(f.Crash? && f.at < 6) && !TailSaves(w.disk.active.value, f))
            && forall x :: Recoverable(w.disk, x) ==> Recoverable(disk, x)
  {
    ReachableInv(w);
    var op := Unlock(skip, RotatesMeanwhile(k, nowMs));
    RotatedInTail(w, skip, k, nowMs, f);
    StepLost(w, op, f);
    StepKeepsInv(w, op, f);
    RecoverableUnlessLost(Step(w, op, f), k);
    forall x | Recoverable(w.disk, x) ensures Recoverable(Step(w, op, f).disk, x) {
      StepLosesNothing(w, op, f, x);
    }
    hide Step, Recoverable, Reachable, MemInv;
  }

  /** It happens: over a heavy envelope, with nothing failing, the new key is gone although `rotate` returned it. */
  lemma TailOverwritesRotationHappens()
    ensures exists w, k, nowMs :: Reachable(w) && w.state.Locked? && FreshKey(w, k)
              && var w' := Step(w, Unlock({}, RotatesMeanwhile(k, nowMs)), NoFault);
                 w'.state.Unlocked? && w'.state.identity == k && !Recoverable(w'.disk, k)
  {
    var e := RetireEntry(1, 10, 0);
    var w := RotatedOnce(e, true);
    assert FreshKey(w, 3);
    TailOverwritesRotation(w, {}, 3, 0, NoFault);
    ReachableInv(w);
    RotatedState(w, 3, 0);
  }

  lemma RotatedState(w: World, k: Key, nowMs: int)
    requires Inv(w) && w.disk.active.Some?
    ensures var w' := Step(w, Unlock({}, RotatesMeanwhile(k, nowMs)), NoFault);
            w'.state.Unlocked? && w'.state.identity == k
  {
    var plan := UnlockPlan(w, {});
    UnlockOpens(w, {});
    AfterPure(w, plan.calls, |plan.calls|);
    var w1 := Finish(w, plan).(skipped := {} - {plan.done.value.identity}, purged := {});
    RotateCompletes(w1, k, nowMs);
    hide PrependRetired, Dedupe, Rebuild, Keep, Inv;
  }
}
