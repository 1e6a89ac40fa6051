/** The contact directory: one list of records, read and rewritten by each operation, and the key-change classifier. */
module Contacts {
  import opened Bytes
  import opened Order
  import Pubkey

  type Id = string
  type Fingerprint = string
  type PublicKey = string
  type Hash = seq<byte> -> seq<byte>

  const MAX_LABEL_LEN: nat := 80

  datatype Contact = Contact(
    id: Id,
    name: string,
    publicKey: PublicKey,
    fingerprint: Fingerprint,
    verified: bool,
    previous: seq<Fingerprint>,
    createdAt: int,
    updatedAt: int)

  datatype Reason = Current | Previous

  datatype Error =
    | InvalidLabel
    | InvalidKey
    | NotFound
    | SameKey
    | RotatedAway
    | Duplicate(existing: Id, name: string, reason: Reason)

  // ---- labels -------------------------------------------------------------------------------------

  predicate IsSpace(c: char) {
    '\t' <= c <= '\r' || c == ' ' || c == '\U{a0}' || c == '\U{1680}' || '\U{2000}' <= c <= '\U{200a}'
    || c == '\U{2028}' || c == '\U{2029}' || c == '\U{202f}' || c == '\U{205f}' || c == '\U{3000}' || c == '\U{feff}'
  }

  function TrimStart(s: string): string {
    if s != [] && IsSpace(s[0]) then TrimStart(s[1..]) else s
  }

  function TrimEnd(s: string): string {
    if s != [] && IsSpace(s[|s| - 1]) then TrimEnd(s[..|s| - 1]) else s
  }

  function Trim(s: string): string {
    TrimEnd(TrimStart(s))
  }

  /** The length the runtime counts: two units for a character beyond the basic plane. */
  function Units(s: string): nat {
    if s == [] then 0 else (if s[0] as int >= 0x1_0000 then 2 else 1) + Units(s[1..])
  }

  function ValidateLabel(raw: string): Result<string, Error> {
    var trimmed := Trim(raw);
    if Units(trimmed) == 0 || Units(trimmed) > MAX_LABEL_LEN then Err(InvalidLabel) else Ok(trimmed)
  }

  // ---- the operations -----------------------------------------------------------------------------

  /** Every key a contact ever had, oldest first. */
  function Keys(c: Contact): seq<Fingerprint> {
    c.previous + [c.fingerprint]
  }

  function FindIndex(all: seq<Contact>, id: Id): (i: Option<nat>)
    ensures i.Some? ==> i.value < |all| && all[i.value].id == id && forall j :: 0 <= j < i.value ==> all[j].id != id
    ensures i.None? ==> forall j :: 0 <= j < |all| ==> all[j].id != id
  {
    if all == [] then None
    else if all[0].id == id then Some(0)
    else
      match FindIndex(all[1..], id)
      case None => None
      case Some(i) => Some(i + 1)
  }

  /** The first contact that has or had the key. */
  function FirstClash(all: seq<Contact>, fp: Fingerprint): Option<Error> {
    if all == [] then None
    else if all[0].fingerprint == fp then Some(Duplicate(all[0].id, all[0].name, Current))
    else if fp in all[0].previous then Some(Duplicate(all[0].id, all[0].name, Previous))
    else FirstClash(all[1..], fp)
  }

  function FingerprintOf(hash: Hash, key: PublicKey): Result<Fingerprint, Error> {
    var r := Pubkey.Fingerprint(hash, key);
    if r.Ok? then Ok(r.value) else Err(InvalidKey)
  }

  function Add(all: seq<Contact>, name: string, key: PublicKey, id: Id, now: int, hash: Hash): Result<Contact, Error> {
    match ValidateLabel(name)
    case Err(e) => Err(e)
    case Ok(trimmed) =>
      match FingerprintOf(hash, key)
      case Err(e) => Err(e)
      case Ok(fp) =>
        match FirstClash(all, fp)
        case Some(e) => Err(e)
        case None => Ok(Contact(id, trimmed, key, fp, false, [], now, now))
  }

  function UpdateKey(all: seq<Contact>, id: Id, key: PublicKey, now: int, hash: Hash): Result<Contact, Error> {
    match FindIndex(all, id)
    case None => Err(NotFound)
    case Some(i) =>
      match FingerprintOf(hash, key)
      case Err(e) => Err(e)
      case Ok(fp) =>
        if fp == all[i].fingerprint then Err(SameKey)
        else if fp in all[i].previous then Err(RotatedAway)
        else Ok(all[i].(publicKey := key, fingerprint := fp, verified := false, previous := Keys(all[i]), updatedAt := now))
  }

  function SetVerified(all: seq<Contact>, id: Id, verified: bool, now: int): Result<Contact, Error> {
    match FindIndex(all, id)
    case None => Err(NotFound)
    case Some(i) => Ok(all[i].(verified := verified, updatedAt := now))
  }

  function Rename(all: seq<Contact>, id: Id, name: string, now: int): Result<Contact, Error> {
    match ValidateLabel(name)
    case Err(e) => Err(e)
    case Ok(trimmed) =>
      match FindIndex(all, id)
      case None => Err(NotFound)
      case Some(i) => Ok(all[i].(name := trimmed, updatedAt := now))
  }

  function Replace(all: seq<Contact>, id: Id, r: Result<Contact, Error>): seq<Contact> {
    var i := FindIndex(all, id);
    if r.Ok? && i.Some? then all[i.value := r.value] else all
  }

  function Delete(all: seq<Contact>, id: Id): seq<Contact> {
    if all == [] then [] else (if all[0].id == id then [] else [all[0]]) + Delete(all[1..], id)
  }

  // ---- the directory as the object it is ----------------------------------------------------------

  class Directory {
    var records: seq<Contact>

    constructor ()
      ensures records == []
    {
      records := [];
    }

    method AddContact(name: string, key: PublicKey, id: Id, now: int, hash: Hash) returns (r: Result<Contact, Error>)
      modifies this
      ensures r == Add(old(records), name, key, id, now, hash)
      ensures records == if r.Ok? then old(records) + [r.value] else old(records)
    {
      hide ValidateLabel, FingerprintOf;
      var trimmed := ValidateLabel(name);
      if trimmed.Err? {
        return Err(trimmed.error);
      }
      var fp := FingerprintOf(hash, key);
      if fp.Err? {
        return Err(fp.error);
      }
      var all := records;
      for i := 0 to |all|
        invariant FirstClash(all, fp.value) == FirstClash(all[i..], fp.value)
      {
        assert all[i..][0] == all[i] && all[i..][1..] == all[i + 1..];
        if all[i].fingerprint == fp.value {
          return Err(Duplicate(all[i].id, all[i].name, Current));
        }
        if fp.value in all[i].previous {
          return Err(Duplicate(all[i].id, all[i].name, Previous));
        }
      }
      var record := Contact(id, trimmed.value, key, fp.value, false, [], now, now);
      records := all + [record];
      return Ok(record);
    }

    method Locate(id: Id) returns (i: Option<nat>)
      ensures i == FindIndex(records, id)
    {
      for k := 0 to |records|
        invariant forall j :: 0 <= j < k ==> records[j].id != id
      {
        if records[k].id == id {
          return Some(k);
        }
      }
      return None;
    }

    method UpdateContactKey(id: Id, key: PublicKey, now: int, hash: Hash) returns (r: Result<Contact, Error>)
      modifies this
      ensures r == UpdateKey(old(records), id, key, now, hash) && records == Replace(old(records), id, r)
    {
      hide FingerprintOf, FindIndex;
      var idx := Locate(id);
      if idx.None? {
        return Err(NotFound);
      }
      var existing := records[idx.value];
      var fp := FingerprintOf(hash, key);
      if fp.Err? {
        return Err(fp.error);
      }
      if fp.value == existing.fingerprint {
        return Err(SameKey);
      }
      if fp.value in existing.previous {
        return Err(RotatedAway);
      }
      var updated := existing.(publicKey := key, fingerprint := fp.value, verified := false,
                               previous := existing.previous + [existing.fingerprint], updatedAt := now);
      records := records[idx.value := updated];
      return Ok(updated);
    }

    method SetContactVerified(id: Id, verified: bool, now: int) returns (r: Result<Contact, Error>)
      modifies this
      ensures r == SetVerified(old(records), id, verified, now) && records == Replace(old(records), id, r)
    {
      hide FindIndex;
      var idx := Locate(id);
      if idx.None? {
        return Err(NotFound);
      }
      var updated := records[idx.value].(verified := verified, updatedAt := now);
      records := records[idx.value := updated];
      return Ok(updated);
    }

    method RenameContact(id: Id, name: string, now: int) returns (r: Result<Contact, Error>)
      modifies this
      ensures r == Rename(old(records), id, name, now) && records == Replace(old(records), id, r)
    {
      hide FindIndex, ValidateLabel;
      var trimmed := ValidateLabel(name);
      if trimmed.Err? {
        return Err(trimmed.error);
      }
      var idx := Locate(id);
      if idx.None? {
        return Err(NotFound);
      }
      var updated := records[idx.value].(name := trimmed.value, updatedAt := now);
      records := records[idx.value := updated];
      return Ok(updated);
    }

    method DeleteContact(id: Id)
      modifies this
      ensures records == Delete(old(records), id)
    {
      var next := Delete(records, id);
      if |next| == |records| {
        NothingDeleted(records, id);
        return;
      }
      records := next;
    }
  }

  lemma {:induction false} NothingDeleted(all: seq<Contact>, id: Id)
    ensures |Delete(all, id)| <= |all|
    ensures |Delete(all, id)| == |all| ==> Delete(all, id) == all
  {
    if all != [] {
      NothingDeleted(all[1..], id);
      assert all == [all[0]] + all[1..];
    }
  }

  // ---- the key-change classifier ------------------------------------------------------------------

  datatype Detection = Same | RotatedBack | Changed(previousFingerprint: Fingerprint, newFingerprint: Fingerprint)

  function ClassifyKeyChange(existing: Contact, candidate: Fingerprint): Detection {
    if candidate == existing.fingerprint then Same
    else if candidate in existing.previous then RotatedBack
    else Changed(existing.fingerprint, candidate)
  }
}
