/** Key histories over every run of the directory's operations, and what the key-change alert can rely on. */
module ContactLaws {
  import opened Bytes
  import opened Contacts
  import opened Order
  import Pubkey

  datatype Op =
    | Adding(name: string, key: PublicKey, id: Id, now: int)
    | Updating(id: Id, key: PublicKey, now: int)
    | Verifying(id: Id, verified: bool, now: int)
    | Renaming(id: Id, name: string, now: int)
    | Deleting(id: Id)

  /** What a successful operation did to a contact. */
  datatype Entry = Adopted(id: Id, fingerprint: Fingerprint) | Marked(id: Id, verified: bool) | Removed(id: Id)

  datatype State = State(all: seq<Contact>, log: seq<Entry>)

  const Empty: State := State([], [])

  function Next(s: State, op: Op, hash: Hash): State {
    match op
    case Adding(name, key, id, now) =>
      var r := Add(s.all, name, key, id, now, hash);
      if r.Ok? then State(s.all + [r.value], s.log + [Adopted(id, r.value.fingerprint)]) else s
    case Updating(id, key, now) =>
      var r := UpdateKey(s.all, id, key, now, hash);
      if r.Ok? then State(Replace(s.all, id, r), s.log + [Adopted(id, r.value.fingerprint)]) else s
    case Verifying(id, verified, now) =>
      var r := SetVerified(s.all, id, verified, now);
      if r.Ok? then State(Replace(s.all, id, r), s.log + [Marked(id, verified)]) else s
    case Renaming(id, name, now) => s.(all := Replace(s.all, id, Rename(s.all, id, name, now)))
    case Deleting(id) => State(Delete(s.all, id), s.log + [Removed(id)])
  }

  predicate Mentions(log: seq<Entry>, id: Id) {
    exists i :: 0 <= i < |log| && log[i].id == id
  }

  /** A new contact's id was never used. */
  predicate Allowed(s: State, op: Op) {
    op.Adding? ==> !Mentions(s.log, op.id)
  }

  function Run(s: State, ops: seq<Op>, hash: Hash): State
    decreases ops
  {
    if ops == [] then s else Run(Next(s, ops[0], hash), ops[1..], hash)
  }

  predicate AllowedRun(s: State, ops: seq<Op>, hash: Hash)
    decreases ops
  {
    ops == [] || (Allowed(s, ops[0]) && AllowedRun(Next(s, ops[0], hash), ops[1..], hash))
  }

  // ---- histories ----------------------------------------------------------------------------------

  /** The keys a contact adopted, in order. */
  function KeysAdopted(log: seq<Entry>, id: Id): seq<Fingerprint> {
    if log == [] then []
    else
      var e := log[|log| - 1];
      KeysAdopted(log[..|log| - 1], id) + (if e.Adopted? && e.id == id then [e.fingerprint] else [])
  }

  /** The last thing said of the contact is that it was marked verified; adopting a key says otherwise. */
  predicate MarkedSinceLastKey(log: seq<Entry>, id: Id) {
    log != []
    && var e := log[|log| - 1];
       if e.id == id then e.Marked? && e.verified else MarkedSinceLastKey(log[..|log| - 1], id)
  }

  lemma LogGrows(log: seq<Entry>, e: Entry, id: Id)
    ensures KeysAdopted(log + [e], id) == KeysAdopted(log, id) + (if e.Adopted? && e.id == id then [e.fingerprint] else [])
    ensures MarkedSinceLastKey(log + [e], id) == if e.id == id then e.Marked? && e.verified else MarkedSinceLastKey(log, id)
    ensures Mentions(log + [e], id) <==> Mentions(log, id) || e.id == id
  {
    assert (log + [e])[..|log|] == log;
    if Mentions(log, id) {
      var i :| 0 <= i < |log| && log[i].id == id;
      assert (log + [e])[i].id == id;
    }
    assert (log + [e])[|log|].id == e.id;
  }

  lemma {:induction false} NothingSaid(log: seq<Entry>, id: Id)
    requires !Mentions(log, id)
    ensures KeysAdopted(log, id) == [] && !MarkedSinceLastKey(log, id)
  {
    if log != [] {
      var front := log[..|log| - 1];
      forall i | 0 <= i < |front| ensures front[i].id != id {
        assert log[i].id != id;
      }
      NothingSaid(front, id);
    }
  }

  // ---- the invariant ------------------------------------------------------------------------------

  ghost predicate ContactInv(log: seq<Entry>, c: Contact, hash: Hash) {
    && Mentions(log, c.id)
    && Keys(c) == KeysAdopted(log, c.id) && Distinct(Keys(c))
    && (c.verified <==> MarkedSinceLastKey(log, c.id))
    && FingerprintOf(hash, c.publicKey) == Ok(c.fingerprint)
    && 1 <= Units(c.name) <= MAX_LABEL_LEN
  }

  ghost predicate Inv(s: State, hash: Hash) {
    && (forall c :: c in s.all ==> ContactInv(s.log, c, hash))
    && (forall i, j :: 0 <= i < j < |s.all| ==> s.all[i].id != s.all[j].id)
  }

  lemma OthersKeep(log: seq<Entry>, e: Entry, c: Contact, hash: Hash)
    requires ContactInv(log, c, hash) && e.id != c.id
    ensures ContactInv(log + [e], c, hash)
  {
    LogGrows(log, e, c.id);
    hide KeysAdopted, MarkedSinceLastKey, Mentions, Keys, Distinct, FingerprintOf, Units;
  }

  lemma AddingKeeps(s: State, c: Contact, hash: Hash)
    requires Inv(s, hash) && !Mentions(s.log, c.id)
    requires FingerprintOf(hash, c.publicKey) == Ok(c.fingerprint) && 1 <= Units(c.name) <= MAX_LABEL_LEN
    requires !c.verified && c.previous == []
    ensures Inv(State(s.all + [c], s.log + [Adopted(c.id, c.fingerprint)]), hash)
  {
    var e := Adopted(c.id, c.fingerprint);
    NewContactInv(s.log, c, hash);
    hide KeysAdopted, MarkedSinceLastKey, Units, FingerprintOf, Keys, Distinct;
    forall x | x in s.all ensures x.id != c.id && ContactInv(s.log + [e], x, hash) {
      assert Mentions(s.log, x.id);
      hide Mentions;
      OthersKeep(s.log, e, x, hash);
    }
    hide ContactInv, Mentions;
    OneMoreId(s.all, c);
  }

  lemma OneMoreId(all: seq<Contact>, c: Contact)
    requires forall i, j :: 0 <= i < j < |all| ==> all[i].id != all[j].id
    requires forall x :: x in all ==> x.id != c.id
    ensures forall i, j :: 0 <= i < j < |all + [c]| ==> (all + [c])[i].id != (all + [c])[j].id
  {
  }

  lemma NewContactInv(log: seq<Entry>, c: Contact, hash: Hash)
    requires !Mentions(log, c.id) && !c.verified && c.previous == []
    requires FingerprintOf(hash, c.publicKey) == Ok(c.fingerprint) && 1 <= Units(c.name) <= MAX_LABEL_LEN
    ensures ContactInv(log + [Adopted(c.id, c.fingerprint)], c, hash)
  {
    NothingSaid(log, c.id);
    LogGrows(log, Adopted(c.id, c.fingerprint), c.id);
    assert Keys(c) == [c.fingerprint];
    hide KeysAdopted, MarkedSinceLastKey, Units, FingerprintOf, Mentions;
  }

  /** Replacing one record, after an entry that speaks of it or of nobody. */
  lemma ReplacingKeeps(s: State, i: nat, c: Contact, log: seq<Entry>, hash: Hash)
    requires Inv(s, hash) && i < |s.all| && c.id == s.all[i].id && ContactInv(log, c, hash)
    requires log == s.log || (exists e: Entry :: e.id == c.id && log == s.log + [e])
    ensures Inv(State(s.all[i := c], log), hash)
  {
    forall x | x in s.all[i := c] ensures ContactInv(log, x, hash) {
      var j :| 0 <= j < |s.all| && s.all[i := c][j] == x;
      if j != i && log != s.log {
        assert s.all[j] in s.all && s.all[j].id != s.all[i].id;
        var e: Entry :| e.id == c.id && log == s.log + [e];
        OthersKeep(s.log, e, x, hash);
      } else if j != i {
        assert s.all[j] in s.all;
      }
    }
    hide ContactInv;
  }

  lemma UpdatingKeeps(s: State, i: nat, c: Contact, hash: Hash)
    requires Inv(s, hash) && i < |s.all| && FingerprintOf(hash, c.publicKey) == Ok(c.fingerprint)
    requires c == s.all[i].(publicKey := c.publicKey, fingerprint := c.fingerprint, verified := false,
                            previous := Keys(s.all[i]), updatedAt := c.updatedAt)
    requires c.fingerprint != s.all[i].fingerprint && c.fingerprint !in s.all[i].previous
    ensures Inv(State(s.all[i := c], s.log + [Adopted(c.id, c.fingerprint)]), hash)
  {
    var x, e := s.all[i], Adopted(c.id, c.fingerprint);
    assert x in s.all;
    LogGrows(s.log, e, c.id);
    assert c.fingerprint !in Keys(x);
    hide KeysAdopted, MarkedSinceLastKey, Units, FingerprintOf, Mentions;
    assert ContactInv(s.log + [e], c, hash);
    ReplacingKeeps(s, i, c, s.log + [e], hash);
  }

  lemma MarkingKeeps(s: State, i: nat, verified: bool, now: int, hash: Hash)
    requires Inv(s, hash) && i < |s.all|
    ensures var c := s.all[i].(verified := verified, updatedAt := now);
            Inv(State(s.all[i := c], s.log + [Marked(c.id, verified)]), hash)
  {
    var c := s.all[i].(verified := verified, updatedAt := now);
    assert s.all[i] in s.all;
    LogGrows(s.log, Marked(c.id, verified), c.id);
    hide KeysAdopted, MarkedSinceLastKey, Units, FingerprintOf, Mentions;
    assert Keys(c) == Keys(s.all[i]);
    assert ContactInv(s.log + [Marked(c.id, verified)], c, hash);
    ReplacingKeeps(s, i, c, s.log + [Marked(c.id, verified)], hash);
  }

  lemma RenamingKeeps(s: State, i: nat, name: string, now: int, hash: Hash)
    requires Inv(s, hash) && i < |s.all| && 1 <= Units(name) <= MAX_LABEL_LEN
    ensures Inv(s.(all := s.all[i := s.all[i].(name := name, updatedAt := now)]), hash)
  {
    var c := s.all[i].(name := name, updatedAt := now);
    assert s.all[i] in s.all;
    hide KeysAdopted, MarkedSinceLastKey, Units, FingerprintOf, Mentions;
    assert Keys(c) == Keys(s.all[i]);
    assert ContactInv(s.log, c, hash);
    ReplacingKeeps(s, i, c, s.log, hash);
  }

  /** Deleting keeps every other record, in order. */
  lemma {:induction false} DeleteMembers(all: seq<Contact>, id: Id)
    ensures forall c :: c in Delete(all, id) <==> c in all && c.id != id
    ensures (forall i, j :: 0 <= i < j < |all| ==> all[i].id != all[j].id)
            ==> forall i, j :: 0 <= i < j < |Delete(all, id)| ==> Delete(all, id)[i].id != Delete(all, id)[j].id
  {
    if all != [] {
      DeleteMembers(all[1..], id);
      assert all == [all[0]] + all[1..];
    }
  }

  lemma DeletingKeeps(s: State, id: Id, hash: Hash)
    requires Inv(s, hash)
    ensures Inv(State(Delete(s.all, id), s.log + [Removed(id)]), hash)
  {
    DeleteMembers(s.all, id);
    forall c | c in Delete(s.all, id) ensures ContactInv(s.log + [Removed(id)], c, hash) {
      OthersKeep(s.log, Removed(id), c, hash);
    }
    hide ContactInv;
  }

  lemma ReplaceAt(all: seq<Contact>, id: Id, r: Result<Contact, Error>)
    requires r.Ok? && FindIndex(all, id).Some?
    ensures Replace(all, id, r) == all[FindIndex(all, id).value := r.value] && all[FindIndex(all, id).value].id == id
  {
  }

  lemma StepKeepsInv(s: State, op: Op, hash: Hash)
    requires Inv(s, hash) && Allowed(s, op)
    ensures Inv(Next(s, op, hash), hash)
  {
    hide Inv, Mentions, FindIndex, FingerprintOf, Trim, FirstClash;
    match op {
      case Adding(name, key, id, now) =>
        var r := Add(s.all, name, key, id, now, hash);
        if r.Ok? {
          AddingKeeps(s, r.value, hash);
        }
      case Updating(id, key, now) =>
        var r := UpdateKey(s.all, id, key, now, hash);
        if r.Ok? {
          ReplaceAt(s.all, id, r);
          UpdatingKeeps(s, FindIndex(s.all, id).value, r.value, hash);
        }
      case Verifying(id, verified, now) =>
        var r := SetVerified(s.all, id, verified, now);
        if r.Ok? {
          ReplaceAt(s.all, id, r);
          MarkingKeeps(s, FindIndex(s.all, id).value, verified, now, hash);
        }
      case Renaming(id, name, now) =>
        var r := Rename(s.all, id, name, now);
        if r.Ok? {
          ReplaceAt(s.all, id, r);
          RenamingKeeps(s, FindIndex(s.all, id).value, r.value.name, now, hash);
        }
      case Deleting(id) => DeletingKeeps(s, id, hash);
    }
  }

  lemma {:induction false} RunKeepsInv(s: State, ops: seq<Op>, hash: Hash)
    requires Inv(s, hash) && AllowedRun(s, ops, hash)
    ensures Inv(Run(s, ops, hash), hash)
    decreases ops
  {
    hide Inv, Next, Allowed;
    if ops != [] {
      StepKeepsInv(s, ops[0], hash);
      RunKeepsInv(Next(s, ops[0], hash), ops[1..], hash);
    }
  }

  // ---- the promises -------------------------------------------------------------------------------

  /**
   * After every run each contact's previous list and current key are, without repetition and in order, all the keys it
   * ever had, and it is verified exactly when it was marked so after the last of them.
   */
  lemma KeyHistory(ops: seq<Op>, hash: Hash, c: Contact)
    requires AllowedRun(Empty, ops, hash) && c in Run(Empty, ops, hash).all
    ensures var log := Run(Empty, ops, hash).log;
            && c.previous + [c.fingerprint] == KeysAdopted(log, c.id) && Distinct(c.previous + [c.fingerprint])
            && (c.verified <==> MarkedSinceLastKey(log, c.id))
            && FingerprintOf(hash, c.publicKey) == Ok(c.fingerprint)
  {
    RunKeepsInv(Empty, ops, hash);
  }

  /** The alert and the store agree: an update of an existing contact passes its guards exactly when the classifier says so. */
  lemma UpdateIffChanged(all: seq<Contact>, id: Id, key: PublicKey, now: int, hash: Hash, fp: Fingerprint)
    requires FindIndex(all, id).Some? && FingerprintOf(hash, key) == Ok(fp)
    ensures var c, r := all[FindIndex(all, id).value], UpdateKey(all, id, key, now, hash);
            && (r.Ok? <==> ClassifyKeyChange(c, fp) == Changed(c.fingerprint, fp))
            && (r == Err(SameKey) <==> ClassifyKeyChange(c, fp) == Same)
            && (r == Err(RotatedAway) <==> ClassifyKeyChange(c, fp) == RotatedBack)
            && (r.Ok? ==> ClassifyKeyChange(r.value, fp) == Same && ClassifyKeyChange(r.value, c.fingerprint) == RotatedBack)
  {
    hide FindIndex, FingerprintOf;
  }

  /** All sixteen strings of a contact's key are that key: none of them raises an alert or gets past the store. */
  lemma SameKeyHoweverWritten(all: seq<Contact>, id: Id, rawKey: seq<byte>, key: PublicKey, now: int, hash: Hash)
    requires FindIndex(all, id).Some?
    requires var c := all[FindIndex(all, id).value];
             |rawKey| == Pubkey.RAW_LEN && Pubkey.Names(c.publicKey, rawKey) && Pubkey.Names(key, rawKey)
             && FingerprintOf(hash, c.publicKey) == Ok(c.fingerprint)
    ensures UpdateKey(all, id, key, now, hash) == Err(SameKey)
  {
    var c := all[FindIndex(all, id).value];
    Pubkey.OneFingerprintPerKey(hash, rawKey, c.publicKey, key);
    hide Pubkey.Names, FindIndex, Pubkey.Fingerprint;
  }

  lemma {:induction false} KeysOnlyGrow(s: State, ops: seq<Op>, hash: Hash, id: Id)
    ensures KeysAdopted(s.log, id) <= KeysAdopted(Run(s, ops, hash).log, id)
    decreases ops
  {
    if ops != [] {
      var s' := Next(s, ops[0], hash);
      if s'.log != s.log {
        var e := s'.log[|s'.log| - 1];
        assert s'.log == s.log + [e];
        LogGrows(s.log, e, id);
      }
      KeysOnlyGrow(s', ops[1..], hash, id);
    }
  }

  /** A key rotated away stays refused, whatever happens in between. */
  lemma RotatedAwayForGood(ops: seq<Op>, more: seq<Op>, hash: Hash, c: Contact, d: Contact, fp: Fingerprint)
    requires AllowedRun(Empty, ops, hash) && AllowedRun(Run(Empty, ops, hash), more, hash)
    requires c in Run(Empty, ops, hash).all && d in Run(Run(Empty, ops, hash), more, hash).all && c.id == d.id
    requires fp in c.previous
    ensures fp in d.previous && ClassifyKeyChange(d, fp) == RotatedBack
  {
    var s := Run(Empty, ops, hash);
    RunKeepsInv(Empty, ops, hash);
    RunKeepsInv(s, more, hash);
    KeysOnlyGrow(s, more, hash, c.id);
    hide KeysAdopted, Run, AllowedRun, FingerprintOf, Units, MarkedSinceLastKey, Mentions;
    StillPrevious(c, d, fp);
  }

  lemma StillPrevious(c: Contact, d: Contact, fp: Fingerprint)
    requires Keys(c) <= Keys(d) && Distinct(Keys(d)) && fp in c.previous
    ensures fp in d.previous && fp != d.fingerprint
  {
    var k :| 0 <= k < |c.previous| && c.previous[k] == fp;
    assert Keys(c)[k] == fp && Keys(d)[k] == fp;
    assert Keys(d)[|d.previous|] == d.fingerprint;
  }

  // ---- across contacts ----------------------------------------------------------------------------

  /** No key is or was the key of two contacts. */
  ghost predicate GloballyUnique(all: seq<Contact>) {
    forall i, j, fp :: 0 <= i < j < |all| && fp in Keys(all[i]) ==> fp !in Keys(all[j])
  }

  lemma {:induction false} NoClash(all: seq<Contact>, fp: Fingerprint)
    ensures FirstClash(all, fp).None? <==> forall i :: 0 <= i < |all| ==> fp !in Keys(all[i])
  {
    if all != [] {
      NoClash(all[1..], fp);
      assert fp in Keys(all[0]) <==> fp == all[0].fingerprint || fp in all[0].previous;
      if FirstClash(all, fp).None? {
        forall i | 0 <= i < |all| ensures fp !in Keys(all[i]) {
          assert i > 0 ==> all[i] == all[1..][i - 1];
        }
      } else if fp !in Keys(all[0]) {
        var i :| 0 <= i < |all[1..]| && fp in Keys(all[1..][i]);
        assert all[i + 1] == all[1..][i];
      }
    }
  }

  /** Adding keeps every key to one contact. */
  lemma AddKeepsUnique(all: seq<Contact>, name: string, key: PublicKey, id: Id, now: int, hash: Hash)
    requires GloballyUnique(all) && Add(all, name, key, id, now, hash).Ok?
    ensures GloballyUnique(all + [Add(all, name, key, id, now, hash).value])
  {
    hide ValidateLabel, FingerprintOf;
    var c := Add(all, name, key, id, now, hash).value;
    NoClash(all, c.fingerprint);
    assert Keys(c) == [c.fingerprint];
  }

  /** An update does so exactly when no other contact has or had the new key, which the store does not check. */
  lemma UpdateKeepsUniqueExactlyWhen(all: seq<Contact>, id: Id, key: PublicKey, now: int, hash: Hash)
    requires GloballyUnique(all) && UpdateKey(all, id, key, now, hash).Ok?
    ensures var r := UpdateKey(all, id, key, now, hash);
            GloballyUnique(Replace(all, id, r)) <==>
            forall j :: 0 <= j < |all| && j != FindIndex(all, id).value ==> r.value.fingerprint !in Keys(all[j])
  {
    hide FingerprintOf, FindIndex;
    var i, c := FindIndex(all, id).value, UpdateKey(all, id, key, now, hash).value;
    var after := all[i := c];
    assert Keys(c) == Keys(all[i]) + [c.fingerprint];
    if GloballyUnique(after) {
      forall j | 0 <= j < |all| && j != i ensures c.fingerprint !in Keys(all[j]) {
        assert after[j] == all[j] && c.fingerprint in Keys(after[i]);
      }
    }
  }

  /** Two contacts can end up with one current key: the second is updated to the key of the first. */
  lemma UpdateCanShareAKey(hash: Hash, one: PublicKey, two: PublicKey, p: Fingerprint, q: Fingerprint)
    requires FingerprintOf(hash, one) == Ok(p) && FingerprintOf(hash, two) == Ok(q) && p != q
    ensures var ops := [Adding("a", one, "1", 0), Adding("b", two, "2", 0), Updating("2", one, 0)];
            var s := Run(Empty, ops, hash);
            && AllowedRun(Empty, ops, hash)
            && |s.all| == 2 && s.all[0].id != s.all[1].id && s.all[0].fingerprint == s.all[1].fingerprint == p
  {
    var a, b := Contact("1", "a", one, p, false, [], 0, 0), Contact("2", "b", two, q, false, [], 0, 0);
    AddsFirst(hash, one, p, a);
    AddsSecond(hash, two, p, q, a, b);
    UpdatesSecond(hash, one, p, q, a, b);
    hide FingerprintOf, Next;
    ThreeSteps(Adding("a", one, "1", 0), Adding("b", two, "2", 0), Updating("2", one, 0), hash);
    assert Allowed(Empty, Adding("a", one, "1", 0));
    assert Allowed(State([a], [Adopted("1", p)]), Adding("b", two, "2", 0));
  }

  lemma AddsFirst(hash: Hash, one: PublicKey, p: Fingerprint, a: Contact)
    requires FingerprintOf(hash, one) == Ok(p) && a == Contact("1", "a", one, p, false, [], 0, 0)
    ensures Next(Empty, Adding("a", one, "1", 0), hash) == State([a], [Adopted("1", p)])
  {
    ShortLabel('a');
    hide FingerprintOf, ValidateLabel;
    assert [] + [a] == [a] && [] + [Adopted("1", p)] == [Adopted("1", p)];
  }

  lemma AddsSecond(hash: Hash, two: PublicKey, p: Fingerprint, q: Fingerprint, a: Contact, b: Contact)
    requires FingerprintOf(hash, two) == Ok(q) && p != q && a.fingerprint == p && a.previous == []
    requires b == Contact("2", "b", two, q, false, [], 0, 0)
    ensures Next(State([a], [Adopted("1", p)]), Adding("b", two, "2", 0), hash)
         == State([a, b], [Adopted("1", p), Adopted("2", q)])
  {
    ShortLabel('b');
    hide FingerprintOf, ValidateLabel;
    assert FirstClash([a][1..], q).None?;
    assert FirstClash([a], q).None?;
    assert [a] + [b] == [a, b] && [Adopted("1", p)] + [Adopted("2", q)] == [Adopted("1", p), Adopted("2", q)];
  }

  lemma UpdatesSecond(hash: Hash, one: PublicKey, p: Fingerprint, q: Fingerprint, a: Contact, b: Contact)
    requires FingerprintOf(hash, one) == Ok(p) && p != q
    requires a.id == "1" && b.id == "2" && b.fingerprint == q && b.previous == []
    ensures var all := Next(State([a, b], [Adopted("1", p), Adopted("2", q)]), Updating("2", one, 0), hash).all;
            |all| == 2 && all[0] == a && all[1].id == "2" && all[1].fingerprint == p
  {
    hide FingerprintOf;
    assert [a, b][1..] == [b];
    assert FindIndex([b], "2") == Some(0) && FindIndex([a, b], "2") == Some(1);
  }

  lemma ShortLabel(c: char)
    requires !IsSpace(c) && c as int < 0x1_0000
    ensures ValidateLabel([c]) == Ok([c])
  {
    assert Trim([c]) == [c];
    assert Units([c]) == 1;
  }

  lemma RunFirst(s: State, x: Op, rest: seq<Op>, hash: Hash)
    ensures Run(s, [x] + rest, hash) == Run(Next(s, x, hash), rest, hash)
    ensures AllowedRun(s, [x] + rest, hash) <==> Allowed(s, x) && AllowedRun(Next(s, x, hash), rest, hash)
  {
    assert ([x] + rest)[1..] == rest;
  }

  lemma ThreeSteps(x: Op, y: Op, z: Op, hash: Hash)
    ensures Run(Empty, [x, y, z], hash) == Next(Next(Next(Empty, x, hash), y, hash), z, hash)
    ensures AllowedRun(Empty, [x, y, z], hash) <==>
            Allowed(Empty, x) && Allowed(Next(Empty, x, hash), y) && Allowed(Next(Next(Empty, x, hash), y, hash), z)
  {
    hide Next, Allowed;
    assert [x, y, z] == [x] + [y, z] && [y, z] == [y] + [z] && [z] == [z] + [];
    RunFirst(Empty, x, [y, z], hash);
    RunFirst(Next(Empty, x, hash), y, [z], hash);
    RunFirst(Next(Next(Empty, x, hash), y, hash), z, [], hash);
  }
}
