/**
 * The machine itself: an object over its three stores, each method one operation of the transition system. A
 * `fault` says which injected call rejects or where the process dies; the contracts equate the whole new world
 * with `Identity.Step`, so the laws of its runs are laws of these methods.
 */
module IdentityMachine {
  import opened Bytes
  import opened IdentityBundle
  import opened Identity
  import opened IdentityLaws
  import opened IdentityOutcomes

  /** The keychain items; every write is all-or-nothing. */
  class DeviceStore {
    var active: Option<Wrapped>
    var retired: seq<RetiredEntry>
    var secret: Option<Secret>

    constructor (disk: Disk)
      ensures active == disk.active && retired == disk.retired && secret == disk.secret
    {
      active, retired, secret := disk.active, disk.retired, disk.secret;
    }

    function Contents(): Disk
      reads this
    {
      Disk(active, retired, secret)
    }

    method LoadRetiredKeys() returns (entries: seq<RetiredEntry>)
      ensures entries == LoadRetired(Contents())
    {
      entries := DedupeRetired(retired);
    }
  }

  datatype Rejection = WrongStatus | CallRejected | ProcessDied

  class Machine {
    const store: DeviceStore
    var state: State
    ghost var activated: seq<Key>
    ghost var kept: seq<Key>
    ghost var deleted: set<Key>
    ghost var overwritten: set<Key>
    ghost var skipped: set<Key>
    ghost var purged: set<Key>

    ghost function World(): World
      reads this, store
    {
      Identity.World.World(store.Contents(), state, activated, kept, deleted, overwritten, skipped, purged)
    }

    constructor (store: DeviceStore)
      ensures this.store == store && World() == Start(store.Contents())
    {
      this.store := store;
      state := Loading;
      activated, kept := Start(store.Contents()).activated, Start(store.Contents()).kept;
      deleted, overwritten, skipped, purged := {}, {}, {}, {};
    }

    // ---- calls ------------------------------------------------------------------------------------

    /** Runs call `c`, the `i`-th of the plan, unless the fault stops the operation before it. */
    method Invoke(c: Call, ghost plan: Plan, i: nat, f: Fault, ghost w: World) returns (stopped: Option<Rejection>)
      requires i < |plan.calls| && plan.calls[i] == c && World() == After(w, plan.calls, i)
      modifies this, store
      ensures stopped.Some? <==> f == Fail(i) || f == Crash(i)
      ensures World() == if stopped.Some? then Perform(w, plan, f) else After(w, plan.calls, i + 1)
    {
      if f == Crash(i) {
        state := Loading;
        return Some(ProcessDied);
      }
      if f == Fail(i) {
        return Some(CallRejected);
      }
      ghost var after := Effect(World(), c);
      match c {
        case Pure =>
        case CreateSecret(s) => store.secret := Some(s);
        case SaveActive(wrapped) => store.active := Some(wrapped);
        case SaveRetired(entries) => store.retired := entries;
        case DeleteActive => store.active := None;
        case DeleteRetired => store.retired := [];
        case DeleteSecret => store.secret := None;
      }
      activated, kept, deleted, overwritten, purged :=
        after.activated, after.kept, after.deleted, after.overwritten, after.purged;
      return None;
    }

    /** `setState`, unless the process dies after the last call. */
    method SetState(next: State, ghost plan: Plan, f: Fault, ghost w: World) returns (stopped: Option<Rejection>)
      requires plan.done == Some(next) && World() == After(w, plan.calls, |plan.calls|)
      requires f.NoFault? || f.at >= |plan.calls|
      modifies this
      ensures World() == Perform(w, plan, f)
      ensures stopped.Some? <==> f.Crash?
      ensures stopped.None? ==> state == next
    {
      if f.Crash? {
        state := Loading;
        return Some(ProcessDied);
      }
      state := next;
      return None;
    }

    // ---- operations -------------------------------------------------------------------------------

    method Init(f: Fault) returns (stopped: Option<Rejection>)
      modifies this, store
      ensures World() == Step(old(World()), Op.Init, f)
    {
      ghost var w := World();
      ghost var plan := InitPlan(w);
      stopped := Invoke(Pure, plan, 0, f, w);
      if stopped.Some? {
        return;
      }
      stopped := SetState(if store.active.Some? then Locked else NoIdentity, plan, f, w);
    }

    method Lock()
      modifies this
      ensures World() == Step(old(World()), Op.Lock, NoFault)
    {
      if state.Unlocked? {
        state := Locked;
      }
    }

    /** The shared tail of `setupNew` and `importIdentity`: secret, wrap, envelope, state. */
    method PersistAndUnlock(k: Key, s: Secret, i: nat, ghost plan: Plan, f: Fault, ghost w: World)
      returns (stopped: Option<Rejection>)
      requires |plan.calls| == i + 3 && plan.calls[i..] == PersistCalls(k, s) && plan.done == Some(Unlocked(k, k, []))
      requires World() == After(w, plan.calls, i) && (f.NoFault? || f.at >= i)
      modifies this, store
      ensures World() == Perform(w, plan, f)
    {
      hide After, Effect, Perform;
      assert plan.calls[i] == plan.calls[i..][0] && plan.calls[i + 1] == plan.calls[i..][1];
      assert plan.calls[i + 2] == plan.calls[i..][2];
      stopped := Invoke(CreateSecret(s), plan, i, f, w);
      if stopped.Some? {
        return;
      }
      stopped := Invoke(Pure, plan, i + 1, f, w);
      if stopped.Some? {
        return;
      }
      stopped := Invoke(SaveActive(Wrapped(k, s, false)), plan, i + 2, f, w);
      if stopped.Some? {
        return;
      }
      stopped := SetState(Unlocked(k, k, []), plan, f, w);
    }

    method Refuse(f: Fault, ghost w: World) returns (stopped: Option<Rejection>)
      requires World() == w
      modifies this
      ensures World() == Perform(w, Plan([], None), f)
      ensures stopped.Some?
    {
      if f.Crash? {
        state := Loading;
        return Some(ProcessDied);
      }
      return Some(WrongStatus);
    }

    method SetupNew(k: Key, s: Secret, f: Fault) returns (stopped: Option<Rejection>)
      modifies this, store
      ensures World() == Step(old(World()), Op.SetupNew(k, s), f)
    {
      if !state.NoIdentity? {
        stopped := Refuse(f, World());
        return;
      }
      skipped, purged := {}, {};
      ghost var w := World();
      ghost var plan := SetupPlan(w, k, s);
      stopped := Invoke(Pure, plan, 0, f, w);
      if stopped.Some? {
        return;
      }
      assert plan.calls[1..] == PersistCalls(k, s);
      stopped := PersistAndUnlock(k, s, 1, plan, f, w);
    }

    method ImportIdentity(k: Key, s: Secret, f: Fault) returns (stopped: Option<Rejection>)
      modifies this, store
      ensures World() == Step(old(World()), Op.Import(k, s), f)
    {
      if !state.NoIdentity? {
        stopped := Refuse(f, World());
        return;
      }
      skipped, purged := {}, {};
      ghost var w := World();
      ghost var plan := ImportPlan(w, k, s);
      assert plan.calls[0..] == PersistCalls(k, s);
      stopped := PersistAndUnlock(k, s, 0, plan, f, w);
    }

    method Wipe(f: Fault) returns (stopped: Option<Rejection>)
      modifies this, store
      ensures World() == Step(old(World()), Op.Wipe, f)
      ensures stopped.None? ==> store.Contents() == Disk(None, [], None) && state == NoIdentity
      ensures f.NoFault? ==> stopped.None?
    {
      ghost var w := World();
      ghost var plan := WipePlan(w);
      assert After(w, plan.calls, 0) == w && plan.done == Some(NoIdentity);
      assert plan.calls == [DeleteActive, DeleteRetired, DeleteSecret, Pure];
      WipeIsPlanned(w, f);
      hide After, Effect, Perform, Step, WipePlan;
      stopped := Invoke(DeleteActive, plan, 0, f, w);
      if stopped.Some? {
        return;
      }
      stopped := Invoke(DeleteRetired, plan, 1, f, w);
      if stopped.Some? {
        return;
      }
      stopped := Invoke(DeleteSecret, plan, 2, f, w);
      if stopped.Some? {
        return;
      }
      stopped := Invoke(Pure, plan, 3, f, w);
      if stopped.Some? {
        return;
      }
      stopped := SetState(NoIdentity, plan, f, w);
      WipeEnds(w, f);
    }

    /** A run of calls that write nothing: reads, prompts, wraps and key generation. */
    method InvokePure(n: nat, ghost plan: Plan, f: Fault, ghost w: World) returns (stopped: Option<Rejection>)
      requires n <= |plan.calls| && (forall i :: 0 <= i < n ==> plan.calls[i] == Pure) && World() == w
      modifies this, store
      ensures stopped.Some? <==> (!f.NoFault? && f.at < n)
      ensures stopped.None? ==> World() == After(w, plan.calls, n) == w
      ensures stopped.Some? ==> World() == Perform(w, plan, f)
    {
      for i := 0 to n
        invariant World() == After(w, plan.calls, i) == w && (f.NoFault? || f.at >= i)
      {
        stopped := Invoke(Pure, plan, i, f, w);
        if stopped.Some? {
          return;
        }
      }
      return None;
    }

    /** Retires the active key: the retained copy is written before the active envelope is replaced. */
    method Rotate(k: Key, nowMs: int, f: Fault) returns (r: Result<Key, Rejection>)
      modifies this, store
      ensures World() == Step(old(World()), Op.Rotate(k, nowMs), f)
      ensures r.Ok? ==> r.value == k && state.Unlocked? && state.identity == k
    {
      ghost var w := World();
      ghost var plan := RotatePlan(w, k, nowMs);
      if !state.Unlocked? || store.secret.None? {
        var refused := Refuse(f, w);
        return Err(refused.value);
      }
      hide After, Effect, Perform;
      var retiring, prior, s := state.identity, state.retiredKeys, store.secret.value;
      var stopped := InvokePure(6, plan, f, w);
      if stopped.Some? {
        return Err(stopped.value);
      }
      var existing := store.LoadRetiredKeys();
      var newRetired := DedupeRetired([RetireEntry(retiring, s, nowMs)] + existing);
      stopped := Invoke(SaveRetired(newRetired), plan, 6, f, w);
      if stopped.Some? {
        return Err(stopped.value);
      }
      stopped := Invoke(SaveActive(Wrapped(k, s, false)), plan, 7, f, w);
      if stopped.Some? {
        return Err(stopped.value);
      }
      stopped := SetState(Unlocked(k, k, [retiring] + prior), plan, f, w);
      if stopped.Some? {
        return Err(stopped.value);
      }
      return Ok(k);
    }

    /** The loop over the retained entries: an entry that does not unwrap, or whose unwrap rejects, is skipped. */
    method UnwrapRetired(entries: seq<RetiredEntry>, secret: Secret, skip: set<Key>) returns (keys: seq<Key>)
      ensures keys == Keep(KeysUnder(entries, secret), skip)
    {
      hide Keep, KeysUnder;
      keys := [];
      assert entries[0..] == entries;
      UnwrapEnd(entries, secret, skip);
      for i := 0 to |entries|
        invariant keys + Keep(KeysUnder(entries[i..], secret), skip) == Keep(KeysUnder(entries, secret), skip)
      {
        UnwrapStep(entries, i, secret, skip);
        var k := Unwrap(entries[i].wrapped, secret);
        if k.Some? && k.value !in skip {
          keys := keys + [k.value];
        }
      }
    }

    method Unlock(skip: set<Key>, overlap: Overlap, f: Fault) returns (stopped: Option<Rejection>)
      modifies this, store
      ensures World() == Step(old(World()), Op.Unlock(skip, overlap), f)
    {
      ghost var w := World();
      ghost var plan := UnlockPlan(w, skip);
      if store.active.None? {
        stopped := Invoke(Pure, plan, 0, f, w);
        if stopped.None? {
          stopped := SetState(NoIdentity, plan, f, w);
        }
        return;
      }
      var wrapped := store.active.value;
      if store.secret.None? || Unwrap(wrapped, store.secret.value).None? {
        stopped := UnlockRejects(if store.secret.None? then 1 else 2, plan, f, w);
        return;
      }
      stopped := UnlockWrapped(wrapped, skip, overlap, f);
    }

    /** The rest of `unlock`, once the active envelope has unwrapped. */
    method UnlockWrapped(wrapped: Wrapped, skip: set<Key>, overlap: Overlap, f: Fault) returns (stopped: Option<Rejection>)
      requires store.active == Some(wrapped) && store.secret.Some? && Unwrap(wrapped, store.secret.value).Some?
      modifies this, store
      ensures World() == Step(old(World()), Op.Unlock(skip, overlap), f)
    {
      ghost var w := World();
      ghost var plan := UnlockPlan(w, skip);
      hide After, Perform, Tail, Keep, KeysUnder;
      var secret := store.secret.value;
      stopped := InvokePure(4, plan, f, w);
      if stopped.Some? {
        return;
      }
      var loaded := store.LoadRetiredKeys();
      var retiredKeys := UnwrapRetired(RetiredExcludingActive(loaded, wrapped.key), secret, skip);
      state := Unlocked(wrapped.key, wrapped.key, retiredKeys);
      skipped, purged := skip - {wrapped.key}, {};
      stopped := Rewrap(wrapped, secret, overlap, f);
    }

    method UnlockRejects(n: nat, ghost plan: Plan, f: Fault, ghost w: World) returns (stopped: Option<Rejection>)
      requires |plan.calls| == n && plan.done.None? && World() == w
      requires forall i :: 0 <= i < n ==> plan.calls[i] == Pure
      modifies this, store
      ensures World() == Perform(w, plan, f)
    {
      stopped := InvokePure(n, plan, f, w);
      if stopped.Some? {
        return;
      }
      if f.Crash? {
        state := Loading;
        return Some(ProcessDied);
      }
      return Some(CallRejected);
    }

    /** The best-effort migration tail; a rejection in it never reaches the caller. */
    method Rewrap(wrapped: Wrapped, secret: Secret, overlap: Overlap, f: Fault) returns (stopped: Option<Rejection>)
      requires state.Unlocked?
      modifies this, store
      ensures World() == Tail(old(World()), wrapped, secret, overlap, f)
    {
      if f.Crash? && f.at < 6 {
        state := Loading;
        return Some(ProcessDied);
      }
      Overlap(overlap);
      var rejected := f.Fail? && f.at < 6;
      if wrapped.heavy && !rejected && state.Unlocked? {
        ghost var w := World();
        ghost var save := Plan([SaveActive(Wrapped(wrapped.key, secret, false))], None);
        assert After(w, save.calls, 0) == w && After(w, save.calls, 1) == Effect(w, save.calls[0]);
        var _ := Invoke(SaveActive(Wrapped(wrapped.key, secret, false)), save, 0,
                        if f == Fail(6) || f == Crash(6) then Fail(0) else NoFault, w);
      }
      if f.Crash? {
        state := Loading;
        return Some(ProcessDied);
      }
      return None;
    }

    /** What another caller does meanwhile. */
    method Overlap(overlap: Overlap)
      requires state.Unlocked?
      modifies this, store
      ensures World() == Overlapped(old(World()), overlap)
    {
      match overlap {
        case Quiet =>
        case LocksMeanwhile => Lock();
        case WipesMeanwhile => {
          var _ := Wipe(NoFault);
        }
        case RotatesMeanwhile(k, nowMs) => {
          var _ := Rotate(k, nowMs, NoFault);
        }
      }
    }
  }

  lemma WipeIsPlanned(w: World, f: Fault)
    ensures Step(w, Op.Wipe, f) == Perform(w, WipePlan(w), f)
  {
  }

  lemma WipeEnds(w: World, f: Fault)
    ensures var w' := Perform(w, WipePlan(w), f);
            Reaches(f, 3) && !f.Crash? ==> w'.disk == Disk(None, [], None) && w'.state == NoIdentity
  {
    WipeOutcome(w, f);
  }

  lemma UnwrapEnd(entries: seq<RetiredEntry>, secret: Secret, skip: set<Key>)
    ensures Keep(KeysUnder(entries[|entries|..], secret), skip) == []
  {
  }

  lemma UnwrapStep(entries: seq<RetiredEntry>, i: nat, secret: Secret, skip: set<Key>)
    requires i < |entries|
    ensures Keep(KeysUnder(entries[i..], secret), skip)
         == (match Unwrap(entries[i].wrapped, secret)
             case Some(k) => if k in skip then [] else [k]
             case None => [])
            + Keep(KeysUnder(entries[i + 1..], secret), skip)
  {
    assert entries[i..][1..] == entries[i + 1..];
    var rest := KeysUnder(entries[i + 1..], secret);
    match Unwrap(entries[i].wrapped, secret)
    case Some(k) => KeepCons(k, rest, skip);
    case None => assert [] + rest == rest;
  }
}
