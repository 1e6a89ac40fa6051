/** The link store as the object the handlers mutate, and the create, open and revoke handlers over it. */
module LinkHandlers {
  import opened Base64Text
  import opened Bytes
  import opened CreateLink
  import opened LinkLaws
  import opened Links

  /** What the handlers answer; an error code for every refusal, the same body for every revoke. */
  datatype Reply =
    | Failed(code: nat)
    | Created(id: Id, token: string)
    | Opened(text: string, row: Row)
    | Accepted(id: Id)

  function DeletedBlobs(st: Store): nat {
    |TerminalIds(st) * st.blobs.Keys|
  }

  /** Mark the rows past due, purge the blobs of every terminal row, then drop the rows past retention. */
  function Sweep(st: Store, nowMs: int, beforeMs: int): Store {
    PruneTerminal(PurgeTerminalBlobs(MarkExpired(st, nowMs)), beforeMs)
  }

  class LinkStore {
    var rows: map<Id, Row>
    var blobs: map<Id, Blob>

    constructor ()
      ensures Contents() == Store(map[], map[])
    {
      rows, blobs := map[], map[];
    }

    function Contents(): Store
      reads this
    {
      Store(rows, blobs)
    }

    /** One transaction: `false`, with nothing changed, when the id is taken or the transaction fails. */
    method CreateWithCiphertext(r: Record, blob: Blob, fails: bool) returns (ok: bool)
      modifies this
      ensures ok <==> !fails && r.id !in old(rows)
      ensures if ok then Links.CreateWithCiphertext(old(Contents()), r, blob) == Some(Contents())
              else Contents() == old(Contents())
      ensures ok ==>
                && rows == old(rows)[r.id := Row(Active, None, r.expiresAtMs, r.maxOpens, 0, r.tokenHash, None)]
                && blobs == old(blobs)[r.id := blob]
    {
      if fails || r.id in rows {
        return false;
      }
      rows := rows[r.id := Row(Active, None, r.expiresAtMs, r.maxOpens, 0, r.tokenHash, None)];
      blobs := blobs[r.id := blob];
      return true;
    }

    method GetBlob(id: Id) returns (blob: Option<Blob>)
      ensures blob == if id in blobs then Some(blobs[id]) else None
    {
      blob := if id in blobs then Some(blobs[id]) else None;
    }

    method IncrementOpens(id: Id, nowMs: int) returns (row: Option<Row>)
      modifies this
      ensures (Contents(), row) == Links.IncrementOpens(old(Contents()), id, nowMs)
      ensures row.Some? <==> id in old(rows) && old(rows)[id].status == Active && nowMs < old(rows)[id].expiresAtMs
      ensures row.Some? ==> row.value.opensCount == old(rows)[id].opensCount + 1 && rows == old(rows)[id := row.value]
    {
      if id !in rows || rows[id].status != Active || rows[id].expiresAtMs <= nowMs {
        return None;
      }
      var next := rows[id].(opensCount := rows[id].opensCount + 1);
      if next.maxOpens != -1 && next.opensCount >= next.maxOpens {
        next := next.(status := Expired, terminalAtMs := Some(nowMs));
        blobs := blobs - {id};
      }
      rows := rows[id := next];
      return Some(next);
    }

    method Revoke(id: Id, provided: Option<TokenHash>, nowMs: int)
      modifies this
      ensures Contents() == Links.Revoke(old(Contents()), id, provided, nowMs)
    {
      if id !in rows || rows[id].status != Active {
        return;
      }
      var stored := rows[id].tokenHash;
      if stored.Some? && (provided.None? || stored.value != provided.value) {
        return;
      }
      rows := rows[id := rows[id].(status := Revoked, terminalAtMs := Some(nowMs))];
      blobs := blobs - {id};
    }

    method PruneTerminal(beforeMs: int) returns (pruned: nat)
      modifies this
      ensures Contents() == Links.PruneTerminal(old(Contents()), beforeMs)
      ensures pruned == |old(rows).Keys - rows.Keys|
    {
      var gone := set id | id in rows && Prunable(rows[id], beforeMs);
      assert rows.Keys - (rows - gone).Keys == gone;
      rows, blobs := rows - gone, blobs - gone;
      pruned := |gone|;
    }

    method ExpirePastDue(nowMs: int, beforeMs: int) returns (purged: nat)
      modifies this
      ensures Contents() == Sweep(old(Contents()), nowMs, beforeMs)
      ensures purged == DeletedBlobs(MarkExpired(old(Contents()), nowMs))
    {
      rows := MarkExpired(Contents(), nowMs).rows;
      var terminal := set id | id in rows && rows[id].status != Active;
      purged := |terminal * blobs.Keys|;
      blobs := blobs - terminal;
      var _ := PruneTerminal(beforeMs);
    }

    method AdminPurge(id: Id, nowMs: int) returns (found: bool, wasActive: bool, removed: bool)
      modifies this
      ensures Contents() == Links.AdminPurge(old(Contents()), id, nowMs)
      ensures found == (id in old(rows)) && removed == (id in old(blobs))
      ensures wasActive == (found && old(rows)[id].status == Active)
    {
      found := id in rows;
      wasActive := found && rows[id].status == Active;
      if wasActive {
        rows := rows[id := rows[id].(status := Revoked, terminalAtMs := Some(nowMs))];
      }
      removed := id in blobs;
      blobs := blobs - {id};
    }
  }

  // ---- the handlers -------------------------------------------------------------------------------

  /** The rate limiter's count, the raw body's length, the clock, the minted token and a failing store are inputs. */
  function CreateOutcome(st: Store, rateCount: nat, bodyLength: nat, body: Option<CreateLink.Request>, nowMs: int,
                         maxRetentionMs: nat, token: string, hash: string -> TokenHash, fails: bool): (Store, Reply) {
    match CheckCreate(rateCount, bodyLength, body, nowMs, maxRetentionMs)
    case Err(refusal) => (st, Failed(if refusal == RateLimited then 429 else 400))
    case Ok(blob) =>
      var b := body.value;
      if b.id in st.rows then (st, Failed(409))
      else if fails then (st, Failed(500))
      else
        (CreateWithCiphertext(st, Record(b.id, b.expiresAt.value, b.maxOpens, Some(hash(token))), blob).value,
         Created(b.id, token))
  }

  method HandleCreate(store: LinkStore, rateCount: nat, bodyLength: nat, body: Option<CreateLink.Request>, nowMs: int,
                      maxRetentionMs: nat, token: string, hash: string -> TokenHash, fails: bool) returns (reply: Reply)
    modifies store
    ensures (store.Contents(), reply)
         == CreateOutcome(old(store.Contents()), rateCount, bodyLength, body, nowMs, maxRetentionMs, token, hash, fails)
  {
    hide DecodeBody;
    var checked := CheckCreate(rateCount, bodyLength, body, nowMs, maxRetentionMs);
    if checked.Err? {
      return Failed(if checked.error == RateLimited then 429 else 400);
    }
    var b := body.value;
    if b.id in store.rows {
      return Failed(409);
    }
    var ok := store.CreateWithCiphertext(
      Record(b.id, b.expiresAt.value, b.maxOpens, Some(hash(token))), checked.value, fails);
    return if ok then Created(b.id, token) else Failed(500);
  }

  function OpenOutcome(st: Store, id: Id, emptyBody: bool, rateCount: nat, nowMs: int): (Store, Reply) {
    if !IsLinkId(id) || !emptyBody then (st, Failed(400))
    else if rateCount > RATE_LIMIT_MAX then (st, Failed(429))
    else
      var (st', row) := IncrementOpens(st, id, nowMs);
      (st', if row.None? || id !in st.blobs then Failed(410) else Opened(Base64Text.Padded(st.blobs[id]), row.value))
  }

  /** The blob is read before the open is consumed: consuming the last open deletes it. */
  method HandleOpen(store: LinkStore, id: Id, emptyBody: bool, rateCount: nat, nowMs: int) returns (reply: Reply)
    modifies store
    ensures (store.Contents(), reply) == OpenOutcome(old(store.Contents()), id, emptyBody, rateCount, nowMs)
  {
    hide Base64Text.Padded;
    if !IsLinkId(id) || !emptyBody {
      return Failed(400);
    }
    if rateCount > RATE_LIMIT_MAX {
      return Failed(429);
    }
    var blob := store.GetBlob(id);
    var row := store.IncrementOpens(id, nowMs);
    if row.None? || blob.None? {
      return Failed(410);
    }
    var text := BytesToBase64(blob.value);
    return Opened(text, row.value);
  }

  /** An absent and an empty header both count as no token. */
  function Provided(header: Option<string>, hash: string -> TokenHash): Option<TokenHash> {
    if header.None? || header.value == "" then None else Some(hash(header.value))
  }

  function RevokeOutcome(st: Store, id: Id, emptyBody: bool, rateCount: nat, header: Option<string>,
                         hash: string -> TokenHash, nowMs: int): (Store, Reply) {
    if !IsLinkId(id) || !emptyBody then (st, Failed(400))
    else if rateCount > RATE_LIMIT_MAX then (st, Failed(429))
    else (Links.Revoke(st, id, Provided(header, hash), nowMs), Accepted(id))
  }

  method HandleRevoke(store: LinkStore, id: Id, emptyBody: bool, rateCount: nat, header: Option<string>,
                      hash: string -> TokenHash, nowMs: int) returns (reply: Reply)
    modifies store
    ensures (store.Contents(), reply)
         == RevokeOutcome(old(store.Contents()), id, emptyBody, rateCount, header, hash, nowMs)
  {
    if !IsLinkId(id) || !emptyBody {
      return Failed(400);
    }
    if rateCount > RATE_LIMIT_MAX {
      return Failed(429);
    }
    store.Revoke(id, Provided(header, hash), nowMs);
    return Accepted(id);
  }

  // ---- what the handlers promise ------------------------------------------------------------------

  /** A create that is answered 201 is a create the protocol allows, of a link that was not there; no other changes anything. */
  lemma CreateIsAllOrNothing(s: System, rateCount: nat, bodyLength: nat, body: Option<CreateLink.Request>, nowMs: int,
                             maxRetentionMs: nat, token: string, hash: string -> TokenHash, fails: bool)
    requires body.Some? ==> body.value.id !in s.created
    ensures var (st, reply) := CreateOutcome(s.store, rateCount, bodyLength, body, nowMs, maxRetentionMs, token, hash, fails);
            if reply.Created? then
              && CheckCreate(rateCount, bodyLength, body, nowMs, maxRetentionMs).Ok?
              && var step := Create(Record(reply.id, body.value.expiresAt.value, body.value.maxOpens, Some(hash(token))), None,
                                    CheckCreate(rateCount, bodyLength, body, nowMs, maxRetentionMs).value);
                 Allowed(s, step) && Next(s, step).store == st && IsLive(st, reply.id, nowMs) && reply.id in st.blobs
            else st == s.store
  {
    hide DecodeBody;
  }

  /** Undisturbed, the handler is the protocol's two atomic steps, and its reply is the protocol's answer. */
  lemma OpenIsTwoSteps(s: System, q: RequestId, id: Id, rateCount: nat, nowMs: int)
    requires q !in s.requests && IsLinkId(id) && rateCount <= RATE_LIMIT_MAX
    ensures var (st, reply) := OpenOutcome(s.store, id, true, rateCount, nowMs);
            var s' := Next(Next(Next(s, BeginOpen(q, id)), ReadBlob(q)), Consume(q, nowMs));
            && s'.store == st && |s'.log| == |s.log| + 1
            && (match s'.log[|s.log|]
                case Delivered(x, bytes, row) => x == id && reply == Opened(Base64Text.Padded(bytes), row)
                case Burned(x) => x == id && reply == Failed(410)
                case Refused(x) => x == id && reply == Failed(410) && st == s.store)
  {
    hide Base64Text.Padded;
    var s1 := Next(s, BeginOpen(q, id));
    var s2 := Next(s1, ReadBlob(q));
    assert s2.requests[q].HasRead? && s2.store == s.store && s2.log == s.log;
  }

  /** The bytes a client posts come back: opened before its expiry, a fresh link answers with the very text of the create. */
  lemma OpenReturnsWhatWasPosted(st: Store, bodyLength: nat, body: CreateLink.Request, blob: Blob, nowMs: int,
                                 maxRetentionMs: nat, token: string, hash: string -> TokenHash, openMs: int)
    requires body.ciphertext == Base64Text.Padded(blob)
    requires CreateOutcome(st, 0, bodyLength, Some(body), nowMs, maxRetentionMs, token, hash, false).1.Created?
    requires openMs < body.expiresAt.value
    ensures var created := CreateOutcome(st, 0, bodyLength, Some(body), nowMs, maxRetentionMs, token, hash, false).0;
            var (st', reply) := OpenOutcome(created, body.id, true, 0, openMs);
            && reply.Opened? && reply.text == body.ciphertext && reply.row.opensCount == 1
            && (body.maxOpens == 1 <==> body.id !in st'.blobs)
            && (body.maxOpens == 1 ==> OpenOutcome(st', body.id, true, 0, openMs) == (st', Failed(410)))
  {
    hide DecodeBody, Base64Text.Padded;
    ServerDecodesPadded(blob);
  }

  /** Whoever holds the token can end the link, nobody else can, and the reply never tells which happened. */
  lemma OnlyTheTokenRevokes(st: Store, id: Id, token: string, header: Option<string>, hash: string -> TokenHash, nowMs: int)
    requires forall x, y :: hash(x) == hash(y) ==> x == y
    requires IsLinkId(id) && token != ""
    requires id in st.rows && st.rows[id].status == Active && st.rows[id].tokenHash == Some(hash(token))
    ensures var (st', reply) := RevokeOutcome(st, id, true, 0, header, hash, nowMs);
            && reply == Accepted(id)
            && (header == Some(token) <==> st'.rows[id].status != Active)
            && (header != Some(token) ==> st' == st)
            && (header == Some(token) ==> id !in st'.blobs)
  {
    if header.Some? && header.value != "" && hash(header.value) == hash(token) {
      assert header.value == token;
    }
  }

  /** After a sweep no active link is past due, no ended link keeps its blob, and no active one lost it. */
  lemma SweepLeavesNothingDue(st: Store, nowMs: int, beforeMs: int, id: Id)
    ensures var st' := Sweep(st, nowMs, beforeMs);
            && (id in st'.rows ==> id in st.rows && !PastDue(st'.rows[id], nowMs) && !Prunable(st'.rows[id], beforeMs))
            && (id in st'.rows && st'.rows[id].status != Active ==> id !in st'.blobs)
            && (IsLive(st, id, nowMs) ==> id in st'.rows && st'.rows[id] == st.rows[id]
                                          && (id in st.blobs ==> id in st'.blobs && st'.blobs[id] == st.blobs[id]))
  {
  }
}
