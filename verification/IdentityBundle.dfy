/** `identity-bundle.ts`: the retained keys of a rotated identity and the list transforms on them. */
module IdentityBundle {
  import opened Bytes

  /** A keypair and the public-key string exported from it; different keypairs have different strings. */
  type Key = nat

  type Secret = nat

  /** A private key wrapped under a device secret; `heavy` marks outdated KDF parameters. */
  datatype Wrapped = Wrapped(key: Key, secret: Secret, heavy: bool)

  /** Ideal wrapping: it opens under its own secret only. */
  function Unwrap(w: Wrapped, secret: Secret): Option<Key> {
    if w.secret == secret then Some(w.key) else None
  }

  datatype Fingerprint = FingerprintOf(key: Key)

  datatype RetiredEntry = RetiredEntry(wrapped: Wrapped, publicKey: Key, fingerprint: Fingerprint, retiredAtMs: int)

  // ---- list transforms ----------------------------------------------------------------------------

  /** The entries whose public key is not in `keys`, in order. */
  function Without(entries: seq<RetiredEntry>, keys: set<Key>): (r: seq<RetiredEntry>) {
    if entries == [] then []
    else (if entries[0].publicKey in keys then [] else [entries[0]]) + Without(entries[1..], keys)
  }

  /** The first entry of every public key, in order. */
  function Dedupe(entries: seq<RetiredEntry>): (r: seq<RetiredEntry>)
  {
    if entries == [] then []
    else [entries[0]] + Without(Dedupe(entries[1..]), {entries[0].publicKey})
  }

  function PrependRetired(existing: seq<RetiredEntry>, entry: RetiredEntry): seq<RetiredEntry> {
    Dedupe([entry] + existing)
  }

  function RetiredExcludingActive(entries: seq<RetiredEntry>, active: Key): seq<RetiredEntry> {
    Without(entries, {active})
  }

  predicate DistinctKeys(entries: seq<RetiredEntry>) {
    forall i, j :: 0 <= i < j < |entries| ==> entries[i].publicKey != entries[j].publicKey
  }

  lemma {:induction false} WithoutConcat(a: seq<RetiredEntry>, b: seq<RetiredEntry>, keys: set<Key>)
    ensures Without(a + b, keys) == Without(a, keys) + Without(b, keys)
  {
    if a == [] {
      assert a + b == b;
    } else {
      assert (a + b)[1..] == a[1..] + b;
      WithoutConcat(a[1..], b, keys);
    }
  }

  lemma {:induction false} WithoutTwice(entries: seq<RetiredEntry>, a: set<Key>, b: set<Key>)
    ensures Without(Without(entries, a), b) == Without(entries, a + b)
  {
    if entries != [] {
      WithoutTwice(entries[1..], a, b);
      WithoutConcat(if entries[0].publicKey in a then [] else [entries[0]], Without(entries[1..], a), b);
      assert entries[0].publicKey !in a ==> [entries[0]][1..] == [];
    }
  }

  lemma {:induction false} WithoutMembers(entries: seq<RetiredEntry>, keys: set<Key>)
    ensures forall e :: e in Without(entries, keys) <==> e in entries && e.publicKey !in keys
    ensures DistinctKeys(entries) ==> DistinctKeys(Without(entries, keys))
  {
    if entries != [] {
      var e, rest := entries[0], entries[1..];
      WithoutMembers(rest, keys);
      var r := Without(rest, keys);
      assert forall x :: x in entries <==> x == e || x in rest;
      if DistinctKeys(entries) {
        assert DistinctKeys(rest);
        forall i | 0 <= i < |r| ensures r[i].publicKey != e.publicKey {
          assert r[i] in rest;
          var j :| 0 <= j < |rest| && rest[j] == r[i];
          assert entries[j + 1] == r[i];
        }
      }
    }
  }

  /** Removing keys that do not occur changes nothing. */
  lemma {:induction false} WithoutAbsent(entries: seq<RetiredEntry>, keys: set<Key>)
    requires forall e :: e in entries ==> e.publicKey !in keys
    ensures Without(entries, keys) == entries
  {
    if entries != [] {
      assert entries[0] in entries;
      WithoutAbsent(entries[1..], keys);
    }
  }

  lemma {:induction false} DedupeMembers(entries: seq<RetiredEntry>)
    ensures DistinctKeys(Dedupe(entries))
    ensures forall e :: e in Dedupe(entries) ==> e in entries
  {
    if entries != [] {
      DedupeMembers(entries[1..]);
      WithoutMembers(Dedupe(entries[1..]), {entries[0].publicKey});
    }
  }

  /** No public key disappears. */
  lemma {:induction false} DedupeKeepsKeys(entries: seq<RetiredEntry>, x: RetiredEntry)
    requires x in entries
    ensures exists d :: d in Dedupe(entries) && d.publicKey == x.publicKey
  {
    var e, rest := entries[0], entries[1..];
    if x.publicKey == e.publicKey {
      assert e in Dedupe(entries);
    } else {
      assert x in rest;
      DedupeKeepsKeys(rest, x);
      WithoutMembers(Dedupe(rest), {e.publicKey});
      var d :| d in Dedupe(rest) && d.publicKey == x.publicKey;
      assert d in Dedupe(entries);
    }
  }

  lemma {:induction false} DedupeOfDistinct(entries: seq<RetiredEntry>)
    requires DistinctKeys(entries)
    ensures Dedupe(entries) == entries
  {
    if entries != [] {
      assert forall i :: 0 <= i < |entries[1..]| ==> entries[1..][i] == entries[i + 1];
      DedupeOfDistinct(entries[1..]);
      WithoutAbsent(entries[1..], {entries[0].publicKey});
    }
  }

  /** Independently of any removal: an entry is kept if no earlier one has its key. */
  function Firsts(entries: seq<RetiredEntry>): seq<RetiredEntry> {
    if entries == [] then []
    else
      var front, last := entries[..|entries| - 1], entries[|entries| - 1];
      Firsts(front) + (if exists i :: 0 <= i < |front| && front[i].publicKey == last.publicKey then [] else [last])
  }

  lemma {:induction false} DedupeSnoc(entries: seq<RetiredEntry>, e: RetiredEntry)
    ensures Dedupe(entries + [e])
         == Dedupe(entries) + (if exists i :: 0 <= i < |entries| && entries[i].publicKey == e.publicKey then [] else [e])
  {
    if entries == [] {
      assert [] + [e] == [e] && [e][1..] == [];
    } else {
      var first, rest := entries[0], entries[1..];
      assert (entries + [e])[1..] == rest + [e];
      DedupeSnoc(rest, e);
      WithoutConcat(Dedupe(rest), if exists i :: 0 <= i < |rest| && rest[i].publicKey == e.publicKey then [] else [e],
                    {first.publicKey});
      WithoutSingle(e, {first.publicKey});
      EarlierInRest(entries, e);
      hide Without;
    }
  }

  lemma EarlierInRest(entries: seq<RetiredEntry>, e: RetiredEntry)
    requires entries != []
    ensures (exists i :: 0 <= i < |entries| && entries[i].publicKey == e.publicKey) <==>
            entries[0].publicKey == e.publicKey
            || exists i :: 0 <= i < |entries[1..]| && entries[1..][i].publicKey == e.publicKey
  {
    if i :| 0 <= i < |entries| && entries[i].publicKey == e.publicKey {
      assert i > 0 ==> entries[1..][i - 1] == entries[i];
    }
    if i :| 0 <= i < |entries[1..]| && entries[1..][i].publicKey == e.publicKey {
      assert entries[i + 1] == entries[1..][i];
    }
  }

  lemma WithoutSingle(e: RetiredEntry, keys: set<Key>)
    ensures Without([e], keys) == if e.publicKey in keys then [] else [e]
  {
    assert [e][1..] == [];
  }

  /** What is kept is the first entry of every key, in order. */
  lemma {:induction false} DedupeKeepsFirsts(entries: seq<RetiredEntry>)
    ensures Dedupe(entries) == Firsts(entries)
  {
    if entries != [] {
      var front, last := entries[..|entries| - 1], entries[|entries| - 1];
      assert entries == front + [last];
      DedupeKeepsFirsts(front);
      DedupeSnoc(front, last);
    }
  }

  // ---- the loop of dedupeRetired ------------------------------------------------------------------

  /** The `seen` loop keeps the first entry of every public key. */
  method DedupeRetired(entries: seq<RetiredEntry>) returns (out: seq<RetiredEntry>)
    ensures out == Dedupe(entries)
  {
    hide Dedupe, Without;
    var seen: set<Key> := {};
    out := [];
    NothingSeen(entries);
    for i := 0 to |entries|
      invariant Dedupe(entries) == out + Without(Dedupe(entries[i..]), seen)
    {
      var e := entries[i];
      SeenStep(entries, i, seen);
      if e.publicKey !in seen {
        KeepOne(out, e, Without(Dedupe(entries[i + 1..]), seen + {e.publicKey}));
        seen := seen + {e.publicKey};
        out := out + [e];
      }
    }
    NothingToDedupe(entries, seen);
  }

  lemma NothingSeen(entries: seq<RetiredEntry>)
    ensures Dedupe(entries) == [] + Without(Dedupe(entries[0..]), {})
  {
    WithoutAbsent(Dedupe(entries), {});
    assert entries[0..] == entries;
  }

  lemma KeepOne(out: seq<RetiredEntry>, e: RetiredEntry, rest: seq<RetiredEntry>)
    ensures out + ([e] + rest) == out + [e] + rest
  {
  }

  lemma NothingToDedupe(entries: seq<RetiredEntry>, seen: set<Key>)
    ensures Without(Dedupe(entries[|entries|..]), seen) == []
  {
  }

  lemma SeenStep(entries: seq<RetiredEntry>, i: nat, seen: set<Key>)
    requires i < |entries|
    ensures var e := entries[i];
            Without(Dedupe(entries[i..]), seen)
            == if e.publicKey in seen then Without(Dedupe(entries[i + 1..]), seen)
               else [e] + Without(Dedupe(entries[i + 1..]), seen + {e.publicKey})
  {
    var e, rest := entries[i], Dedupe(entries[i + 1..]);
    assert entries[i..][1..] == entries[i + 1..];
    WithoutConcat([e], Without(rest, {e.publicKey}), seen);
    assert [e][1..] == [];
    WithoutTwice(rest, {e.publicKey}, seen);
    assert {e.publicKey} + seen == seen + {e.publicKey};
    assert e.publicKey in seen ==> {e.publicKey} + seen == seen;
  }

  // ---- the stored blob ----------------------------------------------------------------------------

  const RETIRED_BLOB_VERSION: int := 1

  datatype StoredEntry = WellFormed(entry: RetiredEntry) | Malformed

  /** What the keychain item holds once JSON is parsed; `Unreadable` stands for everything that is not an object. */
  datatype StoredBlob = Missing | Unreadable | Blob(v: int, keys: Option<seq<StoredEntry>>)

  function WellFormedOnly(keys: seq<StoredEntry>): seq<RetiredEntry> {
    if keys == [] then []
    else (if keys[0].WellFormed? then [keys[0].entry] else []) + WellFormedOnly(keys[1..])
  }

  function SerializeRetired(entries: seq<RetiredEntry>): StoredBlob {
    Blob(RETIRED_BLOB_VERSION, Some(seq(|entries|, i requires 0 <= i < |entries| => WellFormed(entries[i]))))
  }

  /** Tolerant: anything wrong with the blob yields the empty list, anything wrong with an entry drops it. */
  function ParseRetired(blob: StoredBlob): seq<RetiredEntry> {
    if !blob.Blob? || blob.v != RETIRED_BLOB_VERSION || blob.keys.None? then []
    else Dedupe(WellFormedOnly(blob.keys.value))
  }

  lemma {:induction false} AllWellFormed(entries: seq<RetiredEntry>)
    ensures WellFormedOnly(SerializeRetired(entries).keys.value) == entries
  {
    if entries != [] {
      AllWellFormed(entries[1..]);
      assert SerializeRetired(entries).keys.value[1..] == SerializeRetired(entries[1..]).keys.value;
    }
  }

  /** Reading back what was saved gives it deduplicated, and so unchanged when it had no duplicates. */
  lemma ParseAfterSerialize(entries: seq<RetiredEntry>)
    ensures ParseRetired(SerializeRetired(entries)) == Dedupe(entries)
    ensures DistinctKeys(entries) ==> ParseRetired(SerializeRetired(entries)) == entries
  {
    AllWellFormed(entries);
    if DistinctKeys(entries) {
      DedupeOfDistinct(entries);
    }
  }

  lemma {:induction false} WellFormedMembers(keys: seq<StoredEntry>)
    ensures forall e :: e in WellFormedOnly(keys) <==> WellFormed(e) in keys
  {
    if keys != [] {
      WellFormedMembers(keys[1..]);
      assert keys == [keys[0]] + keys[1..];
    }
  }

  /** A malformed entry costs no other: the keys read are exactly those of the well-formed entries of a version-1 blob. */
  lemma ParseKeepsWellFormed(blob: StoredBlob, k: Key)
    ensures (exists d :: d in ParseRetired(blob) && d.publicKey == k) <==>
            blob.Blob? && blob.v == 1 && blob.keys.Some? && exists e :: WellFormed(e) in blob.keys.value && e.publicKey == k
  {
    if blob.Blob? && blob.keys.Some? {
      var list := WellFormedOnly(blob.keys.value);
      WellFormedMembers(blob.keys.value);
      DedupeMembers(list);
      if e :| WellFormed(e) in blob.keys.value && e.publicKey == k {
        DedupeKeepsKeys(list, e);
      }
      if d :| d in Dedupe(list) && d.publicKey == k {
        assert WellFormed(d) in blob.keys.value;
      }
    }
  }

  /** A parse never yields two entries of one public key, whatever the blob. */
  lemma ParseIsDistinct(blob: StoredBlob)
    ensures DistinctKeys(ParseRetired(blob))
  {
    if blob.Blob? && blob.keys.Some? {
      DedupeMembers(WellFormedOnly(blob.keys.value));
    }
  }
}
