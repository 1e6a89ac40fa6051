/** What each handler answers and leaves in the store, field by field, for every request. */
module LinkAnswers {
  import opened Base64Text
  import opened Bytes
  import opened CreateLink
  import opened LinkHandlers
  import opened LinkLaws
  import opened Links

  // ---- opening ------------------------------------------------------------------------------------

  /** The link can be opened now: it is active and its expiry lies ahead. */
  predicate Openable(st: Store, id: Id, nowMs: int) {
    id in st.rows && st.rows[id].status == Active && nowMs < st.rows[id].expiresAtMs
  }

  /** This open is the last one the link has. */
  predicate IsLast(row: Row) {
    row.maxOpens != -1 && row.opensCount + 1 >= row.maxOpens
  }

  /** An open counts one up, and the last one ends the link; nothing else of the row changes. */
  ghost predicate Counted(before: Row, after: Row, nowMs: int) {
    && after.opensCount == before.opensCount + 1
    && (if IsLast(before) then after.status == Expired && after.terminalAtMs == Some(nowMs)
        else after.status == before.status && after.terminalAtMs == before.terminalAtMs)
    && after.createdAtMs == before.createdAtMs && after.expiresAtMs == before.expiresAtMs
    && after.maxOpens == before.maxOpens && after.tokenHash == before.tokenHash
  }

  /** Only this link is touched. */
  ghost predicate OthersSame(st: Store, st': Store, id: Id) {
    && (forall x :: x != id ==> (x in st'.rows <==> x in st.rows) && (x in st.rows ==> st'.rows[x] == st.rows[x]))
    && (forall x :: x != id ==> (x in st'.blobs <==> x in st.blobs) && (x in st.blobs ==> st'.blobs[x] == st.blobs[x]))
  }

  /** One open was consumed, and the blob went with the last one. */
  ghost predicate OneOpenUsed(st: Store, st': Store, id: Id, nowMs: int)
    requires id in st.rows
  {
    && OthersSame(st, st', id) && id in st'.rows && Counted(st.rows[id], st'.rows[id], nowMs)
    && (if IsLast(st.rows[id]) then id !in st'.blobs
        else (id in st'.blobs <==> id in st.blobs) && (id in st.blobs ==> st'.blobs[id] == st.blobs[id]))
  }

  /**
   * An open is answered 200 exactly for a well-formed, admitted request for an active link before its expiry whose blob is
   * there, with that blob and the counted row; it is consumed exactly for an active link before its expiry.
   */
  lemma OpenAnswers(st: Store, id: Id, emptyBody: bool, rateCount: nat, nowMs: int)
    ensures var (st', reply) := OpenOutcome(st, id, emptyBody, rateCount, nowMs);
            var served := IsLinkId(id) && emptyBody && rateCount <= 30;
            && (reply.Opened? <==> served && Openable(st, id, nowMs) && id in st.blobs)
            && (reply.Opened? ==>
                  reply.text == Base64Text.Padded(st.blobs[id]) && id in st'.rows && reply.row == st'.rows[id])
            && (!reply.Opened? ==>
                  reply == Failed(if !IsLinkId(id) || !emptyBody then 400 else if rateCount > 30 then 429 else 410))
            && (if served && Openable(st, id, nowMs) then OneOpenUsed(st, st', id, nowMs) else st' == st)
  {
    hide Base64Text.Padded, IsLinkId;
  }

  /** In a reachable system every openable link has its blob, so an undisturbed open of it is always answered 200. */
  lemma OpenableIsAnswered(s: System, id: Id, nowMs: int)
    requires LinkLaws.Reachable(s) && IsLinkId(id)
    ensures OpenOutcome(s.store, id, true, 0, nowMs).1.Opened? <==> Openable(s.store, id, nowMs)
    ensures Openable(s.store, id, nowMs) ==>
              && id in s.created && nowMs < s.created[id].expiresAtMs
              && OpenOutcome(s.store, id, true, 0, nowMs).1.text == Base64Text.Padded(s.created[id].blob)
  {
    OpenAnswers(s.store, id, true, 0, nowMs);
    BlobIffActive(s, id);
    ReachableInv(s);
    if id in s.store.rows {
      assert RowInv(s, id);
    }
    if id in s.store.blobs {
      assert BlobInv(s, id);
    }
    hide OpenOutcome, Base64Text.Padded, IsLinkId, LinkLaws.Reachable;
  }

  /** In any interleaving a consume counts exactly while its link is active and before the expiry it was created with. */
  lemma ConsumeCounts(s: System, q: RequestId, nowMs: int)
    requires LinkLaws.Reachable(s) && q in s.requests && s.requests[q].HasRead?
    ensures var id, s' := s.requests[q].id, Next(s, Consume(q, nowMs));
            && (if Openable(s.store, id, nowMs) then OneOpenUsed(s.store, s'.store, id, nowMs) else s'.store == s.store)
            && (Openable(s.store, id, nowMs) ==> id in s.created && nowMs < s.created[id].expiresAtMs)
            && |s'.log| == |s.log| + 1 && (s'.log[|s.log|].Refused? <==> !Openable(s.store, id, nowMs))
  {
    hide LinkLaws.Reachable, Answer;
    ReachableInv(s);
    var id := s.requests[q].id;
    if id in s.store.rows {
      assert RowInv(s, id);
    }
    hide Inv, RowInv, Deliveries, Burns;
    var (st, row) := IncrementOpens(s.store, id, nowMs);
    assert Next(s, Consume(q, nowMs)).store == st;
    IncrementIs(s.store, id, nowMs);
    AnswerRefuses(id, s.requests[q].blob, row);
    hide IncrementOpens, Counted, OthersSame, OneOpenUsed;
  }

  lemma AnswerRefuses(id: Id, blob: Option<Blob>, row: Option<Row>)
    ensures Answer(id, blob, row).Refused? <==> row.None?
  {
  }

  /** Consuming an open, field by field. */
  lemma IncrementIs(st: Store, id: Id, nowMs: int)
    ensures var (st', row) := IncrementOpens(st, id, nowMs);
            && (row.Some? <==> Openable(st, id, nowMs))
            && (if Openable(st, id, nowMs) then OneOpenUsed(st, st', id, nowMs) && row == Some(st'.rows[id]) else st' == st)
  {
  }

  // ---- creating -----------------------------------------------------------------------------------

  /**
   * A create is answered 201 exactly for an admitted, acceptable request whose id is free and whose transaction goes through;
   * then the row is stored with the hash of the token and the blob with it, and otherwise nothing changes.
   */
  lemma CreateAnswers(st: Store, rateCount: nat, bodyLength: nat, body: Option<CreateLink.Request>, nowMs: int,
                      maxRetentionMs: nat, token: string, hash: string -> TokenHash, fails: bool)
    ensures var (st', reply) := CreateOutcome(st, rateCount, bodyLength, body, nowMs, maxRetentionMs, token, hash, fails);
            var fine := rateCount <= 30 && body.Some? && Acceptable(body.value, bodyLength, nowMs, maxRetentionMs);
            && (reply.Created? <==> fine && body.value.id !in st.rows && !fails)
            && (reply.Created? ==>
                  var b := body.value;
                  && reply == Created(b.id, token)
                  && st'.rows == st.rows[b.id := Row(Active, None, b.expiresAt.value, b.maxOpens, 0, Some(hash(token)), None)]
                  && st'.blobs == st.blobs[b.id := DecodeBody(b.ciphertext).value])
            && (!reply.Created? ==>
                  && st' == st
                  && reply == Failed(if rateCount > 30 then 429 else if !fine then 400
                                     else if body.value.id in st.rows then 409 else 500))
  {
    hide DecodeBody, IsLinkId;
    if body.Some? {
      CheckCreateIsExact(rateCount, bodyLength, body.value, nowMs, maxRetentionMs);
    }
  }

  /**
   * The token a create hands out protects its link: with a hash without collisions, a revoke under any other header, or none,
   * leaves the store as it was, and one under the token ends the link and takes its blob.
   */
  lemma TokenProtects(st: Store, rateCount: nat, bodyLength: nat, body: Option<CreateLink.Request>, nowMs: int,
                      maxRetentionMs: nat, token: string, hash: string -> TokenHash, header: Option<string>, revokeMs: int)
    requires forall x, y :: hash(x) == hash(y) ==> x == y
    requires token != ""
    requires CreateOutcome(st, rateCount, bodyLength, body, nowMs, maxRetentionMs, token, hash, false).1.Created?
    ensures var (created, reply) := CreateOutcome(st, rateCount, bodyLength, body, nowMs, maxRetentionMs, token, hash, false);
            var (revoked, answer) := RevokeOutcome(created, reply.id, true, 0, header, hash, revokeMs);
            && created.rows[reply.id].tokenHash == Some(hash(token)) && answer == Accepted(reply.id)
            && (if header == Some(token) then
                  && revoked.rows[reply.id].status == Revoked && revoked.rows[reply.id].terminalAtMs == Some(revokeMs)
                  && reply.id !in revoked.blobs && OthersSame(created, revoked, reply.id)
                else revoked == created)
  {
    CreateAnswers(st, rateCount, bodyLength, body, nowMs, maxRetentionMs, token, hash, false);
    var (created, reply) := CreateOutcome(st, rateCount, bodyLength, body, nowMs, maxRetentionMs, token, hash, false);
    assert IsLinkId(reply.id);
    RevokeAnswers(created, reply.id, true, 0, header, hash, revokeMs);
    hide CreateOutcome, RevokeOutcome, IsLinkId, DecodeBody, Acceptable;
    if header.Some? && header.value != "" && hash(header.value) == hash(token) {
      assert header.value == token;
    }
  }

  // ---- ending -------------------------------------------------------------------------------------

  /** The link is ended now by a revocation: row and blob. */
  ghost predicate RevokedNow(st: Store, st': Store, id: Id, nowMs: int)
    requires id in st.rows
  {
    && OthersSame(st, st', id) && id !in st'.blobs
    && id in st'.rows && st'.rows[id] == st.rows[id].(status := Revoked, terminalAtMs := Some(nowMs))
  }

  /** A revoke ends exactly an active link whose stored hash is that of a non-empty token given, or that has none. */
  lemma RevokeAnswers(st: Store, id: Id, emptyBody: bool, rateCount: nat, header: Option<string>, hash: string -> TokenHash,
                      nowMs: int)
    ensures var (st', reply) := RevokeOutcome(st, id, emptyBody, rateCount, header, hash, nowMs);
            var served := IsLinkId(id) && emptyBody && rateCount <= 30;
            && reply == (if served then Accepted(id) else Failed(if !IsLinkId(id) || !emptyBody then 400 else 429))
            && (if served && id in st.rows && st.rows[id].status == Active
                   && (st.rows[id].tokenHash.None?
                       || (header.Some? && header.value != "" && hash(header.value) == st.rows[id].tokenHash.value))
                then RevokedNow(st, st', id, nowMs) else st' == st)
  {
    hide IsLinkId;
  }

  /** The operator purge ends an active link whatever its token, and in every case no blob of that id is left. */
  lemma PurgeEndsAny(st: Store, id: Id, nowMs: int)
    ensures var st' := AdminPurge(st, id, nowMs);
            && OthersSame(st, st', id) && id !in st'.blobs
            && (id in st.rows && st.rows[id].status == Active ==> RevokedNow(st, st', id, nowMs))
            && (!(id in st.rows && st.rows[id].status == Active) ==> st'.rows == st.rows)
  {
  }

  /** The operator's step in the protocol: the link ends, and no blob of that id is left. */
  lemma PurgeStepEnds(s: System, id: Id, nowMs: int)
    requires LinkLaws.Reachable(s)
    ensures var s' := Next(s, AdminPurgeStep(id, nowMs));
            && s'.store == AdminPurge(s.store, id, nowMs) && s'.log == s.log && s'.requests == s.requests
            && s'.created == s.created && (id in s.created ==> Ended(s', id)) && id !in s'.store.blobs
  {
    PurgeEndsAny(s.store, id, nowMs);
  }

  /** Undisturbed, the three statements of the protocol are the store's sweep, and none is left lagging. */
  lemma SweepIsThreeSteps(s: System, nowMs: int, beforeMs: int)
    ensures var s' := Next(Next(Next(s, ExpireStep(nowMs)), PurgeStep), PruneStep(beforeMs));
            && s'.store == Sweep(s.store, nowMs, beforeMs) && s'.lagging == {}
            && s'.log == s.log && s'.requests == s.requests && s'.created == s.created
  {
    hide MarkExpired, PurgeTerminalBlobs, PruneTerminal;
  }

  /** The number a sweep reports is that of the blobs of ended links it removes. */
  lemma SweepCounts(st: Store, nowMs: int)
    ensures DeletedBlobs(MarkExpired(st, nowMs))
         == |set id | id in st.blobs && id in st.rows && Swept(st.rows[id], nowMs).status != Active|
  {
    var marked := MarkExpired(st, nowMs);
    assert TerminalIds(marked) * marked.blobs.Keys
        == set id | id in st.blobs && id in st.rows && Swept(st.rows[id], nowMs).status != Active;
  }

  /** The row as the sweep leaves it: an active row whose expiry has come is expired from now on. */
  function Swept(row: Row, nowMs: int): Row {
    if row.status == Active && row.expiresAtMs <= nowMs then row.(status := Expired, terminalAtMs := Some(nowMs)) else row
  }

  /**
   * A sweep expires exactly the active links past due, keeps blobs of active links only, and forgets exactly the ended links
   * that ended before the retention limit.
   */
  lemma SweepIsExact(st: Store, nowMs: int, beforeMs: int, id: Id)
    ensures var st' := Sweep(st, nowMs, beforeMs);
            && (id in st'.rows <==>
                  id in st.rows && var row := Swept(st.rows[id], nowMs);
                  !(row.status != Active && row.terminalAtMs.Some? && row.terminalAtMs.value < beforeMs))
            && (id in st'.rows ==> st'.rows[id] == Swept(st.rows[id], nowMs))
            && (id in st'.blobs <==> id in st.blobs && (id in st.rows ==> Swept(st.rows[id], nowMs).status == Active))
            && (id in st'.blobs ==> st'.blobs[id] == st.blobs[id])
  {
  }
}
