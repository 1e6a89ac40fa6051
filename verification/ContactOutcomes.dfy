/** What each operation of the directory answers and leaves, field by field, for every list of records. */
module ContactOutcomes {
  import opened Bytes
  import opened ContactLaws
  import opened Contacts

  // ---- labels -------------------------------------------------------------------------------------

  /** White space and line terminators as ECMAScript lists them. */
  const WHITE_SPACE: set<int> :=
    {0x9, 0xa, 0xb, 0xc, 0xd, 0x20, 0xa0, 0x1680, 0x2000, 0x2001, 0x2002, 0x2003, 0x2004, 0x2005, 0x2006, 0x2007, 0x2008,
     0x2009, 0x200a, 0x2028, 0x2029, 0x202f, 0x205f, 0x3000, 0xfeff}

  lemma SpacesAreListed(c: char)
    ensures IsSpace(c) <==> c as int in WHITE_SPACE
  {
  }

  /** A label is measured in UTF-16 units: one for each character of the basic plane, two for each other. */
  lemma {:induction false} UnitsAreUtf16(a: string, b: string, c: char)
    ensures Units(a + [c] + b) == Units(a) + (if c as int > 0xffff then 2 else 1) + Units(b)
  {
    if a == [] {
      assert (a + [c] + b)[0] == c && (a + [c] + b)[1..] == b;
    } else {
      assert (a + [c] + b)[0] == a[0] && (a + [c] + b)[1..] == a[1..] + [c] + b;
      UnitsAreUtf16(a[1..], b, c);
    }
  }

  predicate AllSpace(s: string) {
    forall i :: 0 <= i < |s| ==> IsSpace(s[i])
  }

  lemma {:induction false} TrimStartCuts(s: string)
    ensures exists a :: AllSpace(a) && s == a + TrimStart(s)
    ensures TrimStart(s) != [] ==> !IsSpace(TrimStart(s)[0])
  {
    hide IsSpace;
    if s != [] && IsSpace(s[0]) {
      TrimStartCuts(s[1..]);
      var a :| AllSpace(a) && s[1..] == a + TrimStart(s[1..]);
      assert AllSpace([s[0]] + a) && s == [s[0]] + a + TrimStart(s);
    } else {
      assert AllSpace([]) && s == [] + TrimStart(s);
    }
  }

  lemma {:induction false} TrimEndCuts(s: string)
    ensures exists b :: AllSpace(b) && s == TrimEnd(s) + b
    ensures TrimEnd(s) != [] ==> !IsSpace(TrimEnd(s)[|TrimEnd(s)| - 1])
  {
    hide IsSpace;
    if s != [] && IsSpace(s[|s| - 1]) {
      var front, last := s[..|s| - 1], [s[|s| - 1]];
      TrimEndCuts(front);
      var b :| AllSpace(b) && front == TrimEnd(front) + b;
      assert AllSpace(b + last) && s == TrimEnd(s) + (b + last);
    } else {
      assert AllSpace([]) && s == TrimEnd(s) + [];
    }
  }

  /** Trimming takes white space off both ends and nothing else, and leaves none there. */
  lemma TrimIsExact(s: string)
    ensures exists a, b :: AllSpace(a) && AllSpace(b) && s == a + Trim(s) + b
    ensures Trim(s) != [] ==> !IsSpace(Trim(s)[0]) && !IsSpace(Trim(s)[|Trim(s)| - 1])
  {
    var t := TrimStart(s);
    TrimStartCuts(s);
    TrimEndCuts(t);
    var a :| AllSpace(a) && s == a + t;
    var b :| AllSpace(b) && t == TrimEnd(t) + b;
    assert s == a + Trim(s) + b;
    assert Trim(s) != [] ==> Trim(s)[0] == t[0];
  }

  /** A label is good if its trimmed text has between one and eighty units. */
  predicate IsLabel(name: string) {
    1 <= Units(Trim(name)) <= 80
  }

  // ---- adding -------------------------------------------------------------------------------------

  /** Contact `i` is the first that has or had the key. */
  ghost predicate FirstWith(all: seq<Contact>, fp: Fingerprint, i: nat) {
    i < |all| && fp in Keys(all[i]) && forall j :: 0 <= j < i ==> fp !in Keys(all[j])
  }

  /** A clash names the first contact that has or had the key, and says which of the two. */
  lemma {:induction false} ClashNamesTheFirst(all: seq<Contact>, fp: Fingerprint, i: nat)
    requires FirstWith(all, fp, i)
    ensures FirstClash(all, fp)
         == Some(Duplicate(all[i].id, all[i].name, if fp == all[i].fingerprint then Current else Previous))
  {
    if i > 0 {
      assert fp !in Keys(all[0]);
      assert fp != all[0].fingerprint && fp !in all[0].previous by {
        assert Keys(all[0])[|all[0].previous|] == all[0].fingerprint;
        assert forall k :: 0 <= k < |all[0].previous| ==> Keys(all[0])[k] == all[0].previous[k];
      }
      assert FirstWith(all[1..], fp, i - 1) by {
        forall j | 0 <= j < i - 1 ensures fp !in Keys(all[1..][j]) {
          assert all[1..][j] == all[j + 1];
        }
      }
      ClashNamesTheFirst(all[1..], fp, i - 1);
    }
  }

  /** A contact is added exactly for a good label, a key that decodes and no clash; it is new, unverified and as given. */
  lemma AddOutcome(all: seq<Contact>, name: string, key: PublicKey, id: Id, now: int, hash: Hash)
    ensures var r, fp := Add(all, name, key, id, now, hash), FingerprintOf(hash, key);
            && (r.Ok? <==> IsLabel(name) && fp.Ok? && forall i :: 0 <= i < |all| ==> fp.value !in Keys(all[i]))
            && (r.Ok? ==> r.value == Contact(id, Trim(name), key, fp.value, false, [], now, now))
            && (!IsLabel(name) ==> r == Err(InvalidLabel))
            && (IsLabel(name) && fp.Err? ==> r == Err(InvalidKey))
            && (IsLabel(name) && fp.Ok? ==> forall i: nat :: FirstWith(all, fp.value, i) ==>
                  r == Err(Duplicate(all[i].id, all[i].name, if fp.value == all[i].fingerprint then Current else Previous)))
  {
    var fp := FingerprintOf(hash, key);
    if fp.Ok? {
      NoClash(all, fp.value);
      forall i: nat | FirstWith(all, fp.value, i)
        ensures FirstClash(all, fp.value)
             == Some(Duplicate(all[i].id, all[i].name, if fp.value == all[i].fingerprint then Current else Previous))
      {
        ClashNamesTheFirst(all, fp.value, i);
      }
    }
    hide Trim, Units, FirstClash, Keys;
    KeyErrors(hash, key);
    hide FingerprintOf;
  }

  lemma KeyErrors(hash: Hash, key: PublicKey)
    ensures FingerprintOf(hash, key).Err? ==> FingerprintOf(hash, key).error == InvalidKey
  {
  }

  // ---- changing one record ------------------------------------------------------------------------

  /** Contact `i` is the first with the id. */
  ghost predicate IsAt(all: seq<Contact>, id: Id, i: nat) {
    i < |all| && all[i].id == id && forall j :: 0 <= j < i ==> all[j].id != id
  }

  lemma FoundAt(all: seq<Contact>, id: Id)
    ensures FindIndex(all, id).None? <==> forall j :: 0 <= j < |all| ==> all[j].id != id
    ensures forall i: nat :: IsAt(all, id, i) ==> FindIndex(all, id) == Some(i)
  {
    hide FindIndex;
    forall i: nat | IsAt(all, id, i) ensures FindIndex(all, id) == Some(i) {
      var f := FindIndex(all, id);
      assert f.Some?;
      assert f.value <= i && i <= f.value;
    }
  }

  /** A rename gives the first contact with the id the trimmed label and the time, and touches nothing else. */
  lemma RenameOutcome(all: seq<Contact>, id: Id, name: string, now: int, i: nat)
    requires IsAt(all, id, i)
    ensures var r := Rename(all, id, name, now);
            if IsLabel(name) then
              var c := all[i];
              var renamed := Contact(c.id, Trim(name), c.publicKey, c.fingerprint, c.verified, c.previous, c.createdAt, now);
              r == Ok(renamed) && Replace(all, id, r) == all[..i] + [renamed] + all[i + 1..]
            else r == Err(InvalidLabel) && Replace(all, id, r) == all
  {
    FoundAt(all, id);
    hide FindIndex, Trim, Units;
  }

  /** Marking a contact sets its flag and the time. */
  lemma VerifyOutcome(all: seq<Contact>, id: Id, verified: bool, now: int, i: nat)
    requires IsAt(all, id, i)
    ensures var r, c := SetVerified(all, id, verified, now), all[i];
            var marked := Contact(c.id, c.name, c.publicKey, c.fingerprint, verified, c.previous, c.createdAt, now);
            r == Ok(marked) && Replace(all, id, r) == all[..i] + [marked] + all[i + 1..]
  {
    FoundAt(all, id);
    hide FindIndex;
  }

  /** An update takes the new key, drops the flag and keeps the old key last among the previous ones. */
  lemma UpdateOutcome(all: seq<Contact>, id: Id, key: PublicKey, now: int, hash: Hash, i: nat)
    requires IsAt(all, id, i)
    ensures var r, fp, c := UpdateKey(all, id, key, now, hash), FingerprintOf(hash, key), all[i];
            if fp.Err? then r == Err(InvalidKey) && Replace(all, id, r) == all
            else if fp.value in Keys(c) then
              r == Err(if fp.value == c.fingerprint then SameKey else RotatedAway) && Replace(all, id, r) == all
            else
              var updated := Contact(c.id, c.name, key, fp.value, false, c.previous + [c.fingerprint], c.createdAt, now);
              r == Ok(updated) && Replace(all, id, r) == all[..i] + [updated] + all[i + 1..]
  {
    FoundAt(all, id);
    KeyErrors(hash, key);
    hide FindIndex, FingerprintOf;
    var fp, c := FingerprintOf(hash, key), all[i];
    if fp.Ok? {
      assert fp.value in Keys(c) <==> fp.value == c.fingerprint || fp.value in c.previous;
    }
  }

  /** Without a contact of that id every change is refused and nothing changes. */
  lemma NoSuchContact(all: seq<Contact>, id: Id, key: PublicKey, name: string, verified: bool, now: int, hash: Hash)
    requires forall j :: 0 <= j < |all| ==> all[j].id != id
    ensures UpdateKey(all, id, key, now, hash) == Err(NotFound) && SetVerified(all, id, verified, now) == Err(NotFound)
    ensures Rename(all, id, name, now) == Err(if IsLabel(name) then NotFound else InvalidLabel)
    ensures forall r :: Replace(all, id, r) == all
    ensures Delete(all, id) == all
  {
    FoundAt(all, id);
    NothingMatches(all, id);
    hide FindIndex, FingerprintOf, Trim, Units;
  }

  lemma {:induction false} NothingMatches(all: seq<Contact>, id: Id)
    requires forall j :: 0 <= j < |all| ==> all[j].id != id
    ensures Delete(all, id) == all
  {
    if all != [] {
      NothingMatches(all[1..], id);
      assert all == [all[0]] + all[1..];
    }
  }
}
