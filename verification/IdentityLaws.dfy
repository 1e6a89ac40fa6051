/** What every run of the identity machine keeps, with a crash or a rejected call at any boundary. */
module IdentityLaws {
  import opened Bytes
  import opened IdentityBundle
  import opened Identity
  import opened Order

  // ---- lists of keys ------------------------------------------------------------------------------

  predicate Consistent(entries: seq<RetiredEntry>) {
    forall e :: e in entries ==> e.publicKey == e.wrapped.key
  }

  lemma DistinctCons(k: Key, keys: seq<Key>)
    ensures Distinct([k] + keys) <==> k !in keys && Distinct(keys)
  {
    var all := [k] + keys;
    if Distinct(all) {
      forall i, j | 0 <= i < j < |keys| ensures keys[i] != keys[j] {
        assert all[i + 1] != all[j + 1];
      }
      forall i | 0 <= i < |keys| ensures keys[i] != k {
        assert all[0] != all[i + 1];
      }
    }
  }

  lemma {:induction false} KeysUnderMembers(entries: seq<RetiredEntry>, s: Secret)
    ensures forall k :: k in KeysUnder(entries, s) <==> exists e :: e in entries && Unwrap(e.wrapped, s) == Some(k)
  {
    if entries != [] {
      var e, rest := entries[0], entries[1..];
      KeysUnderMembers(rest, s);
      assert forall x :: x in entries <==> x == e || x in rest;
    }
  }

  lemma {:induction false} KeysUnderDistinct(entries: seq<RetiredEntry>, s: Secret)
    requires Consistent(entries) && DistinctKeys(entries)
    ensures Distinct(KeysUnder(entries, s))
  {
    if entries != [] {
      var e, rest := entries[0], entries[1..];
      assert forall i :: 0 <= i < |rest| ==> rest[i] == entries[i + 1];
      assert DistinctKeys(rest) && Consistent(rest);
      KeysUnderDistinct(rest, s);
      KeysUnderMembers(rest, s);
      if Unwrap(e.wrapped, s).Some? {
        assert e in entries;
        DistinctCons(e.wrapped.key, KeysUnder(rest, s));
      }
    }
  }

  lemma {:induction false} KeepMembers(keys: seq<Key>, skip: set<Key>)
    ensures forall k :: k in Keep(keys, skip) <==> k in keys && k !in skip
    ensures Distinct(keys) ==> Distinct(Keep(keys, skip))
  {
    if keys != [] {
      KeepMembers(keys[1..], skip);
      assert keys == [keys[0]] + keys[1..];
      DistinctCons(keys[0], keys[1..]);
      DistinctCons(keys[0], Keep(keys[1..], skip));
    }
  }

  lemma {:induction false} KeepAll(keys: seq<Key>, skip: set<Key>)
    ensures Keep(keys, skip) == keys <==> forall k :: k in keys ==> k !in skip
    ensures |Keep(keys, skip)| <= |keys|
  {
    if keys != [] {
      KeepAll(keys[1..], skip);
      assert keys == [keys[0]] + keys[1..];
    }
  }

  lemma KeepCons(k: Key, keys: seq<Key>, skip: set<Key>)
    ensures Keep([k] + keys, skip) == (if k in skip then [] else [k]) + Keep(keys, skip)
  {
    assert ([k] + keys)[1..] == keys;
  }

  // ---- what is rebuilt from disk ------------------------------------------------------------------

  lemma {:induction false} KeysUnderForeign(entries: seq<RetiredEntry>, s: Secret)
    requires forall e :: e in entries ==> e.wrapped.secret != s
    ensures KeysUnder(entries, s) == []
  {
    if entries != [] {
      assert entries[0] in entries;
      KeysUnderForeign(entries[1..], s);
    }
  }

  lemma PrependKept(retired: seq<RetiredEntry>, e: RetiredEntry)
    ensures var kept := PrependRetired(Dedupe(retired), e);
            kept == [e] + Without(Dedupe(retired), {e.publicKey}) && Dedupe(kept) == kept
  {
    var d := Dedupe(retired);
    DedupeMembers(retired);
    DedupeOfDistinct(d);
    assert ([e] + d)[1..] == d;
    DedupeMembers([e] + d);
    DedupeOfDistinct(PrependRetired(d, e));
  }

  lemma WithoutCons(e: RetiredEntry, rest: seq<RetiredEntry>, k: Key)
    ensures Without([e] + rest, {k}) == (if e.publicKey == k then [] else [e]) + Without(rest, {k})
  {
    assert ([e] + rest)[1..] == rest;
  }

  /** A retained entry is invisible while its key is the active one. */
  lemma RebuildWhileActive(retired: seq<RetiredEntry>, e: RetiredEntry, s: Secret)
    ensures Rebuild(PrependRetired(Dedupe(retired), e), s, e.publicKey) == Rebuild(retired, s, e.publicKey)
  {
    hide PrependRetired, Dedupe;
    var d, k := Dedupe(retired), e.publicKey;
    PrependKept(retired, e);
    WithoutCons(e, Without(d, {k}), k);
    WithoutTwice(d, {k}, {k});
    assert {k} + {k} == {k};
    assert [] + Without(d, {k}) == Without(d, {k});
  }

  /** It leads the list for a new active key. */
  lemma RebuildAfterRetiring(retired: seq<RetiredEntry>, e: RetiredEntry, s: Secret, newKey: Key)
    requires e.publicKey == e.wrapped.key && e.wrapped.secret == s
    requires newKey != e.publicKey && forall x :: x in retired ==> x.publicKey != newKey
    ensures Rebuild(PrependRetired(Dedupe(retired), e), s, newKey) == [e.publicKey] + Rebuild(retired, s, e.publicKey)
  {
    hide PrependRetired, Dedupe;
    var d, k := Dedupe(retired), e.publicKey;
    var w := Without(d, {k});
    DedupeMembers(retired);
    PrependKept(retired, e);
    WithoutMembers(d, {k});
    WithoutCons(e, w, newKey);
    WithoutAbsent(w, {newKey});
    assert ([e] + w)[1..] == w;
  }

  lemma RetiringIsConsistent(retired: seq<RetiredEntry>, e: RetiredEntry)
    requires Consistent(retired) && e.publicKey == e.wrapped.key
    ensures Consistent(PrependRetired(Dedupe(retired), e))
  {
    DedupeMembers(retired);
    DedupeMembers([e] + Dedupe(retired));
  }

  // ---- what is retained ---------------------------------------------------------------------------

  lemma {:induction false} KeysUnderWithout(entries: seq<RetiredEntry>, s: Secret, x: Key)
    requires Consistent(entries)
    ensures KeysUnder(Without(entries, {x}), s) == Keep(KeysUnder(entries, s), {x})
  {
    if entries != [] {
      var e, rest := entries[0], entries[1..];
      var k, w := e.wrapped.key, Without(rest, {x});
      assert e in entries && entries == [e] + rest && Consistent(rest);
      KeysUnderWithout(rest, s, x);
      WithoutCons(e, rest, x);
      KeysUnderCons(e, rest, s);
      KeysUnderCons(e, w, s);
      KeepCons(k, KeysUnder(rest, s), {x});
      hide KeysUnder, Without, Keep;
      assert [] + KeysUnder(rest, s) == KeysUnder(rest, s) && [] + KeysUnder(w, s) == KeysUnder(w, s);
      assert [] + w == w;
      assert k == x <==> k in {x};
    }
  }

  lemma KeysUnderCons(e: RetiredEntry, rest: seq<RetiredEntry>, s: Secret)
    ensures KeysUnder([e] + rest, s) == (if e.wrapped.secret == s then [e.wrapped.key] else []) + KeysUnder(rest, s)
  {
    assert ([e] + rest)[1..] == rest;
  }

  lemma DedupeIsConsistent(retired: seq<RetiredEntry>)
    requires Consistent(retired)
    ensures Consistent(Dedupe(retired)) && DistinctKeys(Dedupe(retired))
  {
    DedupeMembers(retired);
  }

  /** An unlock finds what is retained, but for the active key. */
  lemma RebuildIsRetained(retired: seq<RetiredEntry>, s: Secret, x: Key)
    requires Consistent(retired)
    ensures Rebuild(retired, s, x) == Keep(RetainedUnder(retired, Some(s)), {x})
    ensures Distinct(RetainedUnder(retired, Some(s)))
  {
    DedupeIsConsistent(retired);
    KeysUnderWithout(Dedupe(retired), s, x);
    KeysUnderDistinct(Dedupe(retired), s);
  }

  lemma NothingForeign(retired: seq<RetiredEntry>, s: Secret)
    requires forall e :: e in retired ==> e.wrapped.secret != s
    ensures RetainedUnder(retired, Some(s)) == []
  {
    DedupeMembers(retired);
    KeysUnderForeign(Dedupe(retired), s);
  }

  /** Retiring a key moves it to the front of what is retained. */
  lemma RetainedAfter(retired: seq<RetiredEntry>, e: RetiredEntry, s: Secret)
    requires Consistent(retired) && e.publicKey == e.wrapped.key && e.wrapped.secret == s
    ensures RetainedUnder(PrependRetired(Dedupe(retired), e), Some(s))
         == Front(e.publicKey, RetainedUnder(retired, Some(s)))
  {
    var d := Dedupe(retired);
    PrependKept(retired, e);
    DedupeIsConsistent(retired);
    KeysUnderWithout(d, s, e.publicKey);
    KeysUnderCons(e, Without(d, {e.publicKey}), s);
  }

  // ---- the invariant ------------------------------------------------------------------------------

  /** Every key of the history is the given one, or was retired, or was overwritten. */
  ghost predicate Accounted(w: World, current: Key) {
    current in w.activated && forall x :: x in w.activated ==> x == current || x in w.kept || x in w.overwritten
  }

  /** What is retained on disk are the retired keys that no wipe deleted, in order. */
  ghost predicate RetainedInv(w: World) {
    RetainedUnder(w.disk.retired, w.disk.secret) == Keep(w.kept, w.deleted)
  }

  ghost predicate KeptInv(w: World) {
    Distinct(w.kept) && forall x :: x in w.kept ==> x in w.activated && x !in w.overwritten
  }

  /** With no active envelope every key of the history was retired, deleted or overwritten. */
  ghost predicate NoneMissing(w: World) {
    forall x :: x in w.activated ==> x in w.kept || x in w.deleted || x in w.overwritten
  }

  /** The active envelope opens under the stored secret, and the disk holds every key neither deleted nor overwritten. */
  ghost predicate DiskInv(w: World) {
    && Consistent(w.disk.retired)
    && KeptInv(w)
    && (w.disk.secret.Some? ==> RetainedInv(w) && (w.disk.active.None? ==> NoneMissing(w)))
    && (w.disk.active.Some? ==>
          var a := w.disk.active.value;
          w.disk.secret == Some(a.secret) && Accounted(w, a.key) && a.key !in w.deleted && a.key !in w.overwritten)
  }

  /** The retired keys the session does not hold: skipped at its unlock, or deleted before it. */
  function NotHeld(w: World): set<Key> {
    w.skipped + (w.deleted - w.purged)
  }

  /** Memory holds the identity and the other retired keys, in order. */
  ghost predicate MemInv(w: World) {
    && (w.state.NoIdentity? ==> w.disk.active.None?)
    && (w.state.Unlocked? ==>
          var k := w.state.identity;
          && w.state.publicKey == k && Accounted(w, k) && k !in w.skipped
          && w.purged <= w.deleted
          && w.state.retiredKeys == Keep(w.kept, NotHeld(w) + {k}))
  }

  ghost predicate Inv(w: World) {
    DiskInv(w) && MemInv(w)
  }

  /** A generated key is one nobody has seen. */
  ghost predicate FreshKey(w: World, k: Key) {
    && k !in w.activated && k !in w.deleted && k !in w.overwritten && k !in w.skipped
    && forall e :: e in w.disk.retired ==> e.publicKey != k
  }

  ghost predicate FreshSecret(w: World, s: Secret) {
    forall e :: e in w.disk.retired ==> e.wrapped.secret != s
  }

  /** Generated secrets and keys are fresh; an imported key may be any key at all. */
  ghost predicate ValidOp(w: World, op: Op) {
    match op
    case SetupNew(_, s) => FreshSecret(w, s)
    case Import(_, s) => FreshSecret(w, s)
    case Rotate(k, _) => FreshKey(w, k)
    case Unlock(skip, overlap) => overlap.RotatesMeanwhile? ==> FreshKey(w, overlap.newKey) && overlap.newKey !in skip
    case _ => true
  }

  /** A machine started over whatever an earlier version left: an active envelope under the stored secret, or none. */
  function Start(disk: Disk): World {
    var kept := RetainedUnder(disk.retired, disk.secret);
    var activated := if disk.active.Some? then Front(disk.active.value.key, kept) else kept;
    World(disk, Loading, activated, kept, {}, {}, {}, {})
  }

  ghost predicate ValidDisk(disk: Disk) {
    Consistent(disk.retired) && (disk.active.Some? ==> disk.secret == Some(disk.active.value.secret))
  }

  lemma StartInv(disk: Disk)
    requires ValidDisk(disk)
    ensures Inv(Start(disk))
  {
    var r := RetainedUnder(disk.retired, disk.secret);
    if disk.secret.Some? {
      RebuildIsRetained(disk.retired, disk.secret.value, 0);
    }
    KeepAll(r, {});
    if disk.active.Some? {
      KeepMembers(r, {disk.active.value.key});
    }
  }

  // ---- one operation ------------------------------------------------------------------------------

  lemma PerformKeeps(w: World, plan: Plan, f: Fault)
    requires forall n :: 0 <= n <= |plan.calls| ==> DiskInv(After(w, plan.calls, n))
    requires forall n :: 0 <= n < |plan.calls| ==> MemInv(After(w, plan.calls, n))
    requires Inv(Finish(w, plan))
    ensures Inv(Perform(w, plan, f))
  {
    var n := |plan.calls|;
    if f.Crash? {
      assert DiskInv(After(w, plan.calls, if f.at < n then f.at else n));
    }
  }

  lemma {:induction false} AfterPure(w: World, calls: seq<Call>, n: nat)
    requires n <= |calls| && forall i :: 0 <= i < n ==> calls[i] == Pure
    ensures After(w, calls, n) == w
  {
    if n > 0 {
      AfterPure(w, calls, n - 1);
    }
  }

  lemma PureKeeps(w: World, plan: Plan, f: Fault)
    requires Inv(w) && forall i :: 0 <= i < |plan.calls| ==> plan.calls[i] == Pure
    requires plan.done.Some? ==> MemInv(w.(state := plan.done.value))
    ensures Inv(Perform(w, plan, f))
  {
    forall n | 0 <= n <= |plan.calls| ensures After(w, plan.calls, n) == w {
      AfterPure(w, plan.calls, n);
    }
    PerformKeeps(w, plan, f);
  }

  lemma PersistEffect(w: World, k: Key, s: Secret)
    requires Inv(w) && w.state.NoIdentity? && FreshSecret(w, s) && w.skipped == {} && w.purged == {}
    ensures Inv(Effect(w, CreateSecret(s)))
    ensures var w' := Effect(Effect(w, CreateSecret(s)), SaveActive(Wrapped(k, s, false)));
            DiskInv(w') && Inv(w'.(state := Unlocked(k, k, [])))
  {
    NothingForeign(w.disk.retired, s);
    hide RetainedUnder;
    assert [k] + [] == [k];
  }

  lemma PersistKeeps(w: World, pre: seq<Call>, k: Key, s: Secret, f: Fault)
    requires pre == [] || pre == [Pure]
    requires Inv(w) && w.state.NoIdentity? && FreshSecret(w, s) && w.skipped == {} && w.purged == {}
    ensures Inv(Perform(w, Plan(pre + PersistCalls(k, s), Some(Unlocked(k, k, []))), f))
  {
    hide DiskInv, MemInv, FreshSecret;
    var plan, p := Plan(pre + PersistCalls(k, s), Some(Unlocked(k, k, []))), |pre|;
    var w1 := Effect(w, CreateSecret(s));
    var w2 := Effect(w1, SaveActive(Wrapped(k, s, false)));
    PersistEffect(w, k, s);
    AfterPure(w, plan.calls, p);
    assert plan.calls[p] == CreateSecret(s) && plan.calls[p + 1] == Pure;
    assert plan.calls[p + 2] == SaveActive(Wrapped(k, s, false));
    assert After(w, plan.calls, p + 1) == w1;
    assert After(w, plan.calls, p + 2) == w1;
    assert After(w, plan.calls, p + 3) == w2;
    assert After(w, plan.calls, 0) == w;
    PerformKeeps(w, plan, f);
  }

  /** What was on disk joins the deleted keys, and nothing is left; memory does not notice. */
  lemma DeleteRetiredEffect(w: World)
    requires Inv(w) && w.disk.active.None?
    ensures Inv(Effect(w, DeleteRetired))
  {
    var w' := Effect(w, DeleteRetired);
    if w.disk.secret.Some? {
      KeepMembers(w.kept, w.deleted);
      KeepNone(w.kept, w'.deleted);
      assert RetainedUnder([], w.disk.secret) == [];
    }
    hide RetainedUnder;
    if w.state.Unlocked? {
      KeepSame(w.kept, NotHeld(w) + {w.state.identity}, NotHeld(w') + {w.state.identity});
    }
  }

  /** A retired key that was not deleted has a copy beside the envelope. */
  lemma CoveredIfKept(w: World)
    requires RetainedInv(w)
    ensures forall x :: x in Uncovered(w) ==> x in w.deleted || x !in w.kept
    ensures w.disk.active.Some? ==> w.disk.active.value.key in w.kept || w.disk.active.value.key in Uncovered(w)
  {
    KeepMembers(w.kept, w.deleted);
    hide RetainedUnder;
  }

  /** An active key with a retained copy stays; without one it joins the deleted keys. */
  lemma DeleteActiveEffect(w: World)
    requires Inv(w)
    ensures Inv(Effect(w, DeleteActive))
  {
    var w' := Effect(w, DeleteActive);
    if w.disk.active.Some? {
      CoveredIfKept(w);
      hide RetainedUnder, Uncovered;
      KeepSame(w.kept, w.deleted, w'.deleted);
      if w.state.Unlocked? {
        KeepSame(w.kept, NotHeld(w) + {w.state.identity}, NotHeld(w') + {w.state.identity});
      }
      hide Keep;
      assert RetainedInv(w') && NoneMissing(w');
    } else {
      assert w' == w;
    }
  }

  lemma {:induction false} KeepNone(keys: seq<Key>, skip: set<Key>)
    requires forall k :: k in keys ==> k in skip
    ensures Keep(keys, skip) == []
  {
    if keys != [] {
      assert keys[0] in keys;
      KeepNone(keys[1..], skip);
    }
  }

  /** Leaving keys out twice. */
  lemma {:induction false} KeepTwice(keys: seq<Key>, a: set<Key>, b: set<Key>)
    ensures Keep(Keep(keys, a), b) == Keep(keys, a + b)
  {
    if keys != [] {
      KeepTwice(keys[1..], a, b);
      if keys[0] in a {
        assert Keep(keys, a) == Keep(keys[1..], a);
      } else {
        KeepCons(keys[0], Keep(keys[1..], a), b);
      }
    }
  }

  lemma WipeEffects(w: World, n: nat)
    requires Inv(w) && n <= 4
    ensures Inv(After(w, WipePlan(w).calls, n))
    ensures After(w, WipePlan(w).calls, 4).disk.active.None?
  {
    var calls := WipePlan(w).calls;
    var w1 := Effect(w, DeleteActive);
    var w2 := Effect(w1, DeleteRetired);
    var w3 := Effect(w2, DeleteSecret);
    assert After(w, calls, 0) == w;
    assert After(w, calls, 1) == w1;
    assert After(w, calls, 2) == w2;
    assert After(w, calls, 3) == w3;
    assert After(w, calls, 4) == w3;
    DeleteActiveEffect(w);
    DeleteRetiredEffect(w1);
    hide RetainedKeys, Uncovered;
  }

  lemma WipeKeeps(w: World, f: Fault)
    requires Inv(w)
    ensures Inv(Perform(w, WipePlan(w), f))
  {
    forall n | 0 <= n <= 4 ensures Inv(After(w, WipePlan(w).calls, n)) {
      WipeEffects(w, n);
    }
    WipeEffects(w, 4);
    PerformKeeps(w, WipePlan(w), f);
  }

  /** What the first write leaves: the identity in front of what is retained, and no longer deleted or overwritten. */
  lemma RetainedNow(w: World, nowMs: int)
    requires Inv(w) && w.state.Unlocked? && w.disk.secret.Some?
    ensures var i, s := w.state.identity, w.disk.secret.value;
            var w1 := Effect(w, SaveRetired(PrependRetired(LoadRetired(w.disk), RetireEntry(i, s, nowMs))));
            && Consistent(w1.disk.retired) && w1.kept == Front(i, w.kept)
            && RetainedUnder(w1.disk.retired, w1.disk.secret) == Front(i, RetainedUnder(w.disk.retired, w.disk.secret))
            && w1.deleted == w.deleted - {i} && w1.overwritten == w.overwritten - {i} && w1.purged == w.purged - {i}
  {
    var i, s := w.state.identity, w.disk.secret.value;
    var e := RetireEntry(i, s, nowMs);
    RetainedAfter(w.disk.retired, e, s);
    RetiringIsConsistent(w.disk.retired, e);
    PrependKept(w.disk.retired, e);
    KeepMembers(w.kept, w.deleted);
    KeepMembers(RetainedUnder(w.disk.retired, w.disk.secret), {i});
    hide PrependRetired, Dedupe, RetainedUnder, Without;
  }

  lemma FrontIsDistinct(k: Key, keys: seq<Key>)
    requires Distinct(keys)
    ensures Distinct(Front(k, keys)) && forall x :: x in Front(k, keys) <==> x == k || x in keys
  {
    KeepMembers(keys, {k});
    DistinctCons(k, Keep(keys, {k}));
  }

  /** Leaving out other keys and moving one to the front. */
  lemma KeepOfFront(k: Key, keys: seq<Key>, skip: set<Key>)
    ensures k !in skip ==> Keep(Front(k, keys), skip) == Front(k, Keep(keys, skip))
    ensures Keep(Front(k, keys), skip + {k}) == Keep(keys, skip + {k})
    ensures Keep(Keep(keys, skip), {k}) == Keep(keys, skip + {k})
  {
    var rest := Keep(keys, {k});
    KeepTwice(keys, {k}, skip);
    KeepTwice(keys, skip, {k});
    KeepTwice(keys, {k}, skip + {k});
    assert {k} + skip == skip + {k} && {k} + (skip + {k}) == skip + {k};
    KeepCons(k, rest, skip);
    KeepCons(k, rest, skip + {k});
    assert [] + Keep(rest, skip + {k}) == Keep(rest, skip + {k});
  }

  /** The first write: the identity is retained while the active envelope is still the old one. */
  lemma RetainEffect(w: World, nowMs: int)
    requires Inv(w) && w.state.Unlocked? && w.disk.secret.Some?
    ensures var e := RetireEntry(w.state.identity, w.disk.secret.value, nowMs);
            var w1 := Effect(w, SaveRetired(PrependRetired(LoadRetired(w.disk), e)));
            Inv(w1) && w.state.identity in w1.kept && w.state.identity !in NotHeld(w1)
  {
    hide PrependRetired, Dedupe, RetainedUnder, Keep, Front;
    var i := w.state.identity;
    var e := RetireEntry(i, w.disk.secret.value, nowMs);
    var w1 := Effect(w, SaveRetired(PrependRetired(LoadRetired(w.disk), e)));
    RetainedNow(w, nowMs);
    assert w1.disk.active == w.disk.active && w1.disk.secret == w.disk.secret && w1.state == w.state;
    assert w1.activated == w.activated && w1.skipped == w.skipped;
    hide Effect;
    RetainedDisk(w, w1, i);
    RetainedMemory(w, w1, i);
    FrontIsDistinct(i, w.kept);
  }

  lemma FrontOfKept(k: Key, keys: seq<Key>, skip: set<Key>)
    ensures Front(k, Keep(keys, skip)) == Keep(Front(k, keys), skip - {k})
  {
    KeepOfFront(k, keys, skip - {k});
    KeepOfFront(k, keys, skip);
    assert skip - {k} + {k} == skip + {k};
  }

  lemma RetainedDisk(w: World, w1: World, i: Key)
    requires DiskInv(w) && w.disk.secret.Some? && w.state.Unlocked? && Accounted(w, i)
    requires w1.disk.active == w.disk.active && w1.disk.secret == w.disk.secret && w1.activated == w.activated
    requires Consistent(w1.disk.retired) && w1.kept == Front(i, w.kept)
    requires w1.deleted == w.deleted - {i} && w1.overwritten == w.overwritten - {i}
    requires RetainedUnder(w1.disk.retired, w1.disk.secret) == Front(i, RetainedUnder(w.disk.retired, w.disk.secret))
    ensures DiskInv(w1)
  {
    hide RetainedUnder, Keep, Front;
    FrontIsDistinct(i, w.kept);
    FrontOfKept(i, w.kept, w.deleted);
  }

  lemma RetainedMemory(w: World, w1: World, i: Key)
    requires MemInv(w) && KeptInv(w) && w.state.Unlocked? && i == w.state.identity
    requires w1.disk.active == w.disk.active && w1.state == w.state
    requires w1.activated == w.activated && w1.skipped == w.skipped
    requires w1.kept == Front(i, w.kept)
    requires w1.deleted == w.deleted - {i} && w1.overwritten == w.overwritten - {i} && w1.purged == w.purged - {i}
    ensures MemInv(w1) && i !in NotHeld(w1)
  {
    hide Keep, Front;
    FrontIsDistinct(i, w.kept);
    KeepOfFront(i, w.kept, NotHeld(w1));
    assert NotHeld(w1) + {i} == NotHeld(w) + {i};
  }

  /** Whatever was active has a retained copy once the identity is retained. */
  lemma NothingUncovered(w1: World, i: Key)
    requires DiskInv(w1) && w1.disk.secret.Some? && RetainedInv(w1)
    requires i in w1.kept && i !in w1.deleted && Accounted(w1, i)
    ensures Uncovered(w1) == {}
  {
    hide RetainedUnder;
    KeepMembers(w1.kept, w1.deleted);
  }

  /** The second write: the new key becomes active, and nothing of the disk is lost. */
  lemma ActivateEffect(w1: World, i: Key, k: Key, s: Secret)
    requires DiskInv(w1) && w1.disk.secret == Some(s) && RetainedInv(w1)
    requires i in w1.kept && i !in w1.deleted && Accounted(w1, i)
    requires k !in w1.activated && k !in w1.deleted && k !in w1.overwritten
    ensures var w2 := Effect(w1, SaveActive(Wrapped(k, s, false)));
            && DiskInv(w2) && Accounted(w2, k) && RetainedInv(w2)
            && w2 == w1.(disk := w1.disk.(active := Some(Wrapped(k, s, false))), activated := [k] + w1.activated,
                         purged := w1.purged - {k})
  {
    NothingUncovered(w1, i);
    hide RetainedUnder, Keep, Uncovered;
    assert w1.deleted - {k} == w1.deleted && w1.overwritten + {} - {k} == w1.overwritten;
  }

  lemma RotatedMemory(w: World, w1: World, w2: World, k: Key)
    requires MemInv(w) && w.state.Unlocked? && FreshKey(w, k)
    requires w1.kept == Front(w.state.identity, w.kept) && NotHeld(w1) == NotHeld(w) - {w.state.identity}
    requires w2.kept == w1.kept && NotHeld(w2) == NotHeld(w1) && w2.purged <= w2.deleted && w2.skipped == w.skipped
    requires Accounted(w2, k) && RetainedInv(w2) && w2.disk.active.Some? && k !in w.kept && k !in w1.kept
    ensures MemInv(w2.(state := Unlocked(k, k, [w.state.identity] + w.state.retiredKeys)))
  {
    var i := w.state.identity;
    var after := w2.(state := Unlocked(k, k, [i] + w.state.retiredKeys));
    KeepOfFront(i, w.kept, NotHeld(w2));
    KeepOfFront(i, w.kept, NotHeld(w2) + {k});
    KeepTwice(w.kept, NotHeld(w2), {i});
    KeepSame(w.kept, NotHeld(w) + {i}, NotHeld(w2) + {k} + {i});
    hide RetainedUnder, Keep;
    assert Keep(w1.kept, NotHeld(w2) + {k}) == Front(i, Keep(w.kept, NotHeld(w2) + {k}));
  }

  lemma RotateEffects(w: World, k: Key, nowMs: int)
    requires Inv(w) && w.state.Unlocked? && w.disk.secret.Some? && FreshKey(w, k)
    ensures var plan := RotatePlan(w, k, nowMs);
            var w1 := Effect(w, plan.calls[6]);
            && Inv(w1)
            && DiskInv(Effect(w1, plan.calls[7]))
            && Inv(Effect(w1, plan.calls[7]).(state := plan.done.value))
  {
    hide PrependRetired, Dedupe, RetainedUnder, Keep, Front, RetireEntry, Uncovered;
    var plan := RotatePlan(w, k, nowMs);
    var i, s := w.state.identity, w.disk.secret.value;
    var w1 := Effect(w, plan.calls[6]);
    RetainedNow(w, nowMs);
    RetainEffect(w, nowMs);
    FrontIsDistinct(i, w.kept);
    assert w1.activated == w.activated && w1.skipped == w.skipped && w1.state == w.state;
    hide Effect;
    ActivateEffect(w1, i, k, s);
    var w2 := Effect(w1, plan.calls[7]);
    RotatedMemory(w, w1, w2, k);
  }

  lemma RotateKeeps(w: World, k: Key, nowMs: int, f: Fault)
    requires Inv(w) && FreshKey(w, k)
    ensures Inv(Perform(w, RotatePlan(w, k, nowMs), f))
  {
    hide DiskInv, MemInv, PrependRetired, Dedupe, FreshKey, RetainedUnder, Front;
    var plan := RotatePlan(w, k, nowMs);
    if w.state.Unlocked? && w.disk.secret.Some? {
      RotateEffects(w, k, nowMs);
      forall n | 0 <= n <= 6 ensures After(w, plan.calls, n) == w {
        AfterPure(w, plan.calls, n);
      }
      assert After(w, plan.calls, 7) == Effect(w, plan.calls[6]);
      assert After(w, plan.calls, 8) == Effect(After(w, plan.calls, 7), plan.calls[7]);
    } else {
      assert After(w, plan.calls, 0) == w;
    }
    PerformKeeps(w, plan, f);
  }

  lemma UnlockOpens(w: World, skip: set<Key>)
    requires Inv(w) && w.disk.active.Some?
    ensures var s, k := w.disk.secret, w.disk.active.value.key;
            && s.Some? && UnlockPlan(w, skip).done == Some(Unlocked(k, k, Keep(Rebuild(w.disk.retired, s.value, k), skip)))
            && Inv(w.(state := UnlockPlan(w, skip).done.value, skipped := skip - {k}, purged := {}))
  {
    var a := w.disk.active.value;
    RebuildIsRetained(w.disk.retired, a.secret, a.key);
    KeepTwice(w.kept, w.deleted, {a.key});
    KeepTwice(w.kept, w.deleted + {a.key}, skip);
    KeepSame(w.kept, w.deleted + {a.key} + skip, (skip - {a.key}) + (w.deleted - {}) + {a.key});
    hide RetainedUnder, Rebuild, Keep;
  }

  lemma {:induction false} KeepSame(keys: seq<Key>, a: set<Key>, b: set<Key>)
    requires forall k :: k in keys ==> (k in a <==> k in b)
    ensures Keep(keys, a) == Keep(keys, b)
  {
    if keys != [] {
      assert keys[0] in keys;
      KeepSame(keys[1..], a, b);
    }
  }

  /** Saving the old active envelope again over a rotation: only the new key is overwritten. */
  lemma ReactivateEffect(w: World, k: Key, again: Wrapped)
    requires Inv(w) && w.state.Unlocked? && w.disk.active.Some? && w.disk.active.value.key == w.state.identity == k
    requires w.disk.secret == Some(again.secret) && again.key in w.kept && again.key !in w.deleted && k !in w.kept
    ensures Inv(Effect(w, SaveActive(again)))
  {
    KeepMembers(w.kept, w.deleted);
    hide RetainedUnder, Keep;
    var w' := Effect(w, SaveActive(again));
    assert w'.deleted == w.deleted && w'.overwritten == w.overwritten + {k};
    assert w.purged <= w.deleted && w'.purged == w.purged;
  }

  /** Re-wrapping the active key under lighter parameters changes no history. */
  lemma RewrapEffect(w: World, again: Wrapped)
    requires Inv(w) && w.disk.active.Some? && w.disk.active.value.key == again.key && w.disk.secret == Some(again.secret)
    ensures Effect(w, SaveActive(again)) == w.(disk := w.disk.(active := Some(again)), purged := w.purged - {again.key})
    ensures Inv(Effect(w, SaveActive(again)))
  {
    hide RetainedUnder, Keep;
    assert w.deleted - {again.key} == w.deleted;
    assert w.overwritten + Uncovered(w) - {again.key} == w.overwritten;
    if w.state.Unlocked? {
      assert NotHeld(Effect(w, SaveActive(again))) == NotHeld(w);
    }
  }

  /** What a completed rotation leaves on disk and in memory. */
  lemma RotatedInPlace(w: World, k: Key, nowMs: int)
    requires Inv(w) && w.state.Unlocked? && w.disk.secret.Some? && FreshKey(w, k)
    ensures var w2 := Perform(w, RotatePlan(w, k, nowMs), NoFault);
            && Inv(w2) && w2.state.Unlocked? && w2.state.identity == k && k !in w2.kept
            && w2.disk.active == Some(Wrapped(k, w.disk.secret.value, false)) && w2.disk.secret == w.disk.secret
            && w2.kept == Front(w.state.identity, w.kept) && w.state.identity !in w2.deleted
  {
    hide PrependRetired, Dedupe, RetainedUnder, Keep, Front, RetireEntry, Uncovered;
    var calls := RotatePlan(w, k, nowMs).calls;
    RotateKeeps(w, k, nowMs, NoFault);
    RetainedNow(w, nowMs);
    FrontIsDistinct(w.state.identity, w.kept);
    AfterPure(w, calls, 6);
    assert After(w, calls, 7) == Effect(w, calls[6]);
    assert After(w, calls, 8) == Effect(After(w, calls, 7), calls[7]);
    hide After, DiskInv, MemInv;
  }

  /** What a rotation leaves is kept when the tail saves the old active envelope again over it. */
  lemma TailOverRotation(w: World, wrapped: Wrapped, k: Key, nowMs: int)
    requires Inv(w) && w.state.Unlocked? && w.disk.active == Some(wrapped) && w.state.identity == wrapped.key
    requires FreshKey(w, k)
    ensures var w2 := Perform(w, RotatePlan(w, k, nowMs), NoFault);
            Inv(w2) && w2.state.Unlocked? && Inv(Effect(w2, SaveActive(Wrapped(wrapped.key, wrapped.secret, false))))
  {
    RotatedInPlace(w, k, nowMs);
    FrontIsDistinct(wrapped.key, w.kept);
    hide Perform, Effect, FreshKey, RetainedInv, NotHeld;
    ReactivateEffect(Perform(w, RotatePlan(w, k, nowMs), NoFault), k, Wrapped(wrapped.key, wrapped.secret, false));
  }

  lemma TailKeeps(w: World, wrapped: Wrapped, overlap: Overlap, f: Fault)
    requires Inv(w) && w.state.Unlocked? && w.disk.active == Some(wrapped) && w.state.identity == wrapped.key
    requires overlap.RotatesMeanwhile? ==> FreshKey(w, overlap.newKey)
    ensures Inv(Tail(w, wrapped, wrapped.secret, overlap, f))
  {
    var again := Wrapped(wrapped.key, wrapped.secret, false);
    var w2 := Overlapped(w, overlap);
    StateDropped(w);
    match overlap {
      case Quiet => RewrapEffect(w, again);
      case LocksMeanwhile =>
      case WipesMeanwhile => WipeKeeps(w, NoFault);
      case RotatesMeanwhile(k, nowMs) => TailOverRotation(w, wrapped, k, nowMs);
    }
    if overlap.WipesMeanwhile? {
      assert !w2.state.Unlocked?;
    }
    assert Inv(w2) && (w2.state.Unlocked? ==> Inv(Effect(w2, SaveActive(again))));
    StateDropped(w2);
    if w2.state.Unlocked? {
      StateDropped(Effect(w2, SaveActive(again)));
    }
    hide Inv, Effect, Overlapped, FreshKey;
  }

  /** A lock or a crash keeps the invariant. */
  lemma StateDropped(w: World)
    requires Inv(w)
    ensures Inv(w.(state := Locked)) && Inv(w.(state := Loading))
  {
    hide RetainedUnder, Keep;
  }

  lemma UnlockKeeps(w: World, skip: set<Key>, overlap: Overlap, f: Fault)
    requires Inv(w) && ValidOp(w, Unlock(skip, overlap))
    ensures Inv(UnlockStep(w, skip, overlap, f))
  {
    hide Tail;
    var plan := UnlockPlan(w, skip);
    if w.disk.active.None? {
      PureKeeps(w, plan, f);
    } else {
      UnlockOpens(w, skip);
      var n := |plan.calls|;
      if !f.NoFault? && f.at < n {
        forall i | 0 <= i <= n ensures After(w, plan.calls, i) == w {
          AfterPure(w, plan.calls, i);
        }
      } else {
        AfterPure(w, plan.calls, n);
        var w1 := Finish(w, plan).(skipped := skip - {plan.done.value.identity}, purged := {});
        TailKeeps(w1, w.disk.active.value, overlap, f);
      }
    }
  }

  /** Every operation keeps the invariant, wherever it is cut short. */
  lemma StepKeepsInv(w: World, op: Op, f: Fault)
    requires Inv(w) && ValidOp(w, op)
    ensures Inv(Step(w, op, f))
  {
    hide Perform, UnlockStep;
    match op
    case Init => PureKeeps(w, InitPlan(w), f);
    case SetupNew(k, s) => {
      if w.state.NoIdentity? {
        PersistKeeps(NewSession(w), [Pure], k, s, f);
      } else {
        PureKeeps(w, SetupPlan(w, k, s), f);
      }
    }
    case Import(k, s) => {
      if w.state.NoIdentity? {
        assert [] + PersistCalls(k, s) == PersistCalls(k, s);
        PersistKeeps(NewSession(w), [], k, s, f);
      } else {
        PureKeeps(w, ImportPlan(w, k, s), f);
      }
    }
    case Unlock(skip, overlap) => UnlockKeeps(w, skip, overlap, f);
    case Lock =>
    case Wipe => WipeKeeps(w, f);
    case Rotate(k, nowMs) => RotateKeeps(w, k, nowMs, f);
  }
}
