/**
 * The identity machine of `identity-machine.ts` as a transition system. Every injected call is one step; a call
 * may reject without effect, and the process may die at any boundary between calls. Beside disk and memory a
 * world carries history that nothing in the machine reads: which keys have been active and which were retired, which of
 * them wipes have deleted or a save has overwritten, and what the current session failed to unwrap or saw deleted.
 */
module Identity {
  import opened Bytes
  import opened IdentityBundle
  import opened Order

  // ---- state --------------------------------------------------------------------------------------

  datatype State =
    | Loading
    | NoIdentity
    | Locked
    | Unlocked(identity: Key, publicKey: Key, retiredKeys: seq<Key>)

  /** The wrapped active identity, the retired-keys blob and the device secret: three separately written items. */
  datatype Disk = Disk(active: Option<Wrapped>, retired: seq<RetiredEntry>, secret: Option<Secret>)

  /**
   * `activated`: every key that was active on disk since the device secret was created, newest first; `kept`: those of
   * them that were retired, latest retirement first. `deleted`: the keys whose last copy a wipe deleted; `overwritten`:
   * the keys whose envelope was replaced while it was their last copy; a key written again leaves both. `skipped`: the
   * retired keys this session failed to unwrap; `purged`: the retired keys that were deleted in this session.
   */
  datatype World = World(
    disk: Disk,
    state: State,
    activated: seq<Key>,
    kept: seq<Key>,
    deleted: set<Key>,
    overwritten: set<Key>,
    skipped: set<Key>,
    purged: set<Key>)

  function LoadRetired(disk: Disk): seq<RetiredEntry> {
    Dedupe(disk.retired)
  }

  function KeysUnder(entries: seq<RetiredEntry>, secret: Secret): seq<Key> {
    if entries == [] then []
    else
      (match Unwrap(entries[0].wrapped, secret) case Some(k) => [k] case None => [])
      + KeysUnder(entries[1..], secret)
  }

  /** The retired keys an unlock with this secret finds on disk, in order. */
  function Rebuild(retired: seq<RetiredEntry>, secret: Secret, active: Key): seq<Key> {
    KeysUnder(RetiredExcludingActive(Dedupe(retired), active), secret)
  }

  /** The keys not in `skip`, in order. */
  function Keep(keys: seq<Key>, skip: set<Key>): seq<Key> {
    if keys == [] then [] else (if keys[0] in skip then [] else [keys[0]]) + Keep(keys[1..], skip)
  }

  /** The retired keys on disk under the secret, in order. */
  function RetainedUnder(retired: seq<RetiredEntry>, secret: Option<Secret>): seq<Key> {
    if secret.None? then [] else KeysUnder(Dedupe(retired), secret.value)
  }

  function RetainedKeys(w: World): set<Key> {
    Elements(RetainedUnder(w.disk.retired, w.disk.secret))
  }

  // ---- calls --------------------------------------------------------------------------------------

  /** An injected call; `Pure` calls read, compute or prompt, the others write one item. */
  datatype Call =
    | Pure
    | CreateSecret(secret: Secret)
    | SaveActive(wrapped: Wrapped)
    | SaveRetired(entries: seq<RetiredEntry>)
    | DeleteActive
    | DeleteRetired
    | DeleteSecret

  /** The active key, if its envelope is its last copy on disk. */
  function Uncovered(w: World): set<Key> {
    if w.disk.active.Some? && w.disk.active.value.key !in RetainedKeys(w) then {w.disk.active.value.key} else {}
  }

  /** The key moves to the front. */
  function Front(k: Key, keys: seq<Key>): seq<Key> {
    [k] + Keep(keys, {k})
  }

  function Effect(w: World, c: Call): World {
    match c
    case Pure => w
    case CreateSecret(s) =>
      w.(disk := w.disk.(secret := Some(s)), activated := [], kept := [], deleted := {}, overwritten := {})
    case SaveActive(wrapped) =>
      w.(disk := w.disk.(active := Some(wrapped)),
         activated := if wrapped.key in w.activated then w.activated else [wrapped.key] + w.activated,
         deleted := w.deleted - {wrapped.key},
         overwritten := w.overwritten + Uncovered(w) - {wrapped.key},
         purged := w.purged - {wrapped.key})
    case SaveRetired(entries) =>
      var written := Elements(RetainedUnder(entries, w.disk.secret));
      w.(disk := w.disk.(retired := entries),
         kept := if entries == [] then w.kept else Front(entries[0].publicKey, w.kept),
         deleted := w.deleted - written,
         overwritten := w.overwritten - written,
         purged := w.purged - written)
    case DeleteActive => w.(disk := w.disk.(active := None), deleted := w.deleted + Uncovered(w))
    case DeleteRetired =>
      w.(disk := w.disk.(retired := []), deleted := w.deleted + RetainedKeys(w), purged := w.purged + RetainedKeys(w))
    case DeleteSecret => w.(disk := w.disk.(secret := None))
  }

  function After(w: World, calls: seq<Call>, n: nat): World
    requires n <= |calls|
  {
    if n == 0 then w else Effect(After(w, calls, n - 1), calls[n - 1])
  }

  /** `Fail(i)`: call `i` rejects without effect. `Crash(i)`: the process dies when `i` calls have returned. */
  datatype Fault = NoFault | Fail(at: nat) | Crash(at: nat)

  /** The calls an operation makes in order, and the state it sets after the last; `None` when it rejects there. */
  datatype Plan = Plan(calls: seq<Call>, done: Option<State>)

  function Perform(w: World, plan: Plan, f: Fault): World {
    var n := |plan.calls|;
    match f
    case Crash(at) => After(w, plan.calls, if at < n then at else n).(state := Loading)
    case Fail(at) => if at < n then After(w, plan.calls, at) else Finish(w, plan)
    case NoFault => Finish(w, plan)
  }

  function Finish(w: World, plan: Plan): World {
    var w' := After(w, plan.calls, |plan.calls|);
    if plan.done.Some? then w'.(state := plan.done.value) else w'
  }

  // ---- operations ---------------------------------------------------------------------------------

  /**
   * What ran while the re-wrap of an unlock was pending, or right after the unlock when nothing was. The machine guards
   * against the first two overlaps; a rotation it does not guard against.
   */
  datatype Overlap = Quiet | LocksMeanwhile | WipesMeanwhile | RotatesMeanwhile(newKey: Key, nowMs: int)

  datatype Op =
    | Init
    | SetupNew(newKey: Key, newSecret: Secret)
    | Import(key: Key, newSecret: Secret)
    | Unlock(skip: set<Key>, overlap: Overlap)
    | Lock
    | Wipe
    | Rotate(newKey: Key, nowMs: int)

  function InitPlan(w: World): Plan {
    Plan([Pure], Some(if w.disk.active.Some? then Locked else NoIdentity))
  }

  function PersistCalls(k: Key, s: Secret): seq<Call> {
    [CreateSecret(s), Pure, SaveActive(Wrapped(k, s, false))]
  }

  function SetupPlan(w: World, k: Key, s: Secret): Plan {
    if !w.state.NoIdentity? then Plan([], None) else Plan([Pure] + PersistCalls(k, s), Some(Unlocked(k, k, [])))
  }

  function ImportPlan(w: World, k: Key, s: Secret): Plan {
    if !w.state.NoIdentity? then Plan([], None) else Plan(PersistCalls(k, s), Some(Unlocked(k, k, [])))
  }

  /** Load, biometric prompt, unwrap, load retired; an unwrap of a retired key that rejects is skipped. */
  function UnlockPlan(w: World, skip: set<Key>): Plan {
    if w.disk.active.None? then Plan([Pure], Some(NoIdentity))
    else if w.disk.secret.None? then Plan([Pure], None)
    else
      var secret := w.disk.secret.value;
      match Unwrap(w.disk.active.value, secret)
      case None => Plan([Pure, Pure], None)
      case Some(k) =>
        Plan([Pure, Pure, Pure, Pure], Some(Unlocked(k, k, Keep(Rebuild(w.disk.retired, secret, k), skip))))
  }

  function WipePlan(w: World): Plan {
    Plan([DeleteActive, DeleteRetired, DeleteSecret, Pure], Some(NoIdentity))
  }

  function RetireEntry(retiring: Key, s: Secret, nowMs: int): RetiredEntry {
    RetiredEntry(Wrapped(retiring, s, false), retiring, FingerprintOf(retiring), nowMs)
  }

  /** Retained-first: the retired blob is written before the active envelope. */
  function RotatePlan(w: World, k: Key, nowMs: int): Plan {
    if !w.state.Unlocked? || w.disk.secret.None? then Plan([], None)
    else
      var retiring, s := w.state.identity, w.disk.secret.value;
      Plan([Pure, Pure, Pure, Pure, Pure, Pure,
            SaveRetired(PrependRetired(LoadRetired(w.disk), RetireEntry(retiring, s, nowMs))),
            SaveActive(Wrapped(k, s, false))],
           Some(Unlocked(k, k, [retiring] + w.state.retiredKeys)))
  }

  function Overlapped(w: World, overlap: Overlap): World {
    match overlap
    case Quiet => w
    case LocksMeanwhile => w.(state := Locked)
    case WipesMeanwhile => Perform(w, WipePlan(w), NoFault)
    case RotatesMeanwhile(k, nowMs) => Perform(w, RotatePlan(w, k, nowMs), NoFault)
  }

  /** A heavy envelope is re-wrapped and saved, unless the check (call 4), the wrap (5) or the save (6) stops it. */
  predicate TailSaves(wrapped: Wrapped, f: Fault) {
    wrapped.heavy && !(f.Fail? && f.at <= 6) && f != Crash(6)
  }

  /** The best-effort re-wrap after an unlock: it saves only if the machine is still unlocked, and swallows a rejection. */
  function Tail(w: World, wrapped: Wrapped, secret: Secret, overlap: Overlap, f: Fault): World {
    if f.Crash? && f.at < 6 then w.(state := Loading)
    else
      var w2 := Overlapped(w, overlap);
      var w3 := if !TailSaves(wrapped, f) || !w2.state.Unlocked? then w2
                else Effect(w2, SaveActive(Wrapped(wrapped.key, secret, false)));
      if f.Crash? then w3.(state := Loading) else w3
  }

  /** An unlock starts a session: it knows which keys it skipped, and no wipe has run in it. */
  function UnlockStep(w: World, skip: set<Key>, overlap: Overlap, f: Fault): World {
    var plan := UnlockPlan(w, skip);
    var n := |plan.calls|;
    if !(plan.done.Some? && plan.done.value.Unlocked?) || (!f.NoFault? && f.at < n) then Perform(w, plan, f)
    else
      var w1 := Finish(w, plan).(skipped := skip - {plan.done.value.identity}, purged := {});
      Tail(w1, w.disk.active.value, w.disk.secret.value, overlap, f)
  }

  function NewSession(w: World): World {
    if w.state.NoIdentity? then w.(skipped := {}, purged := {}) else w
  }

  function Step(w: World, op: Op, f: Fault): World {
    match op
    case Init => Perform(w, InitPlan(w), f)
    case SetupNew(k, s) => Perform(NewSession(w), SetupPlan(w, k, s), f)
    case Import(k, s) => Perform(NewSession(w), ImportPlan(w, k, s), f)
    case Unlock(skip, overlap) => UnlockStep(w, skip, overlap, f)
    case Lock => if w.state.Unlocked? then w.(state := Locked) else w
    case Wipe => Perform(w, WipePlan(w), f)
    case Rotate(k, nowMs) => Perform(w, RotatePlan(w, k, nowMs), f)
  }
}
