/** What the ordering "read the blob, then consume the open" guarantees under every interleaving. */
module LinkLaws {
  import opened Bytes
  import opened Links

  lemma EmptyInv()
    ensures Inv(Empty)
  {
  }

  lemma CreateKeeps(s: System, r: Record, createdAtMs: Option<int>, blob: Blob)
    requires Inv(s) && Allowed(s, Create(r, createdAtMs, blob))
    ensures Inv(Next(s, Create(r, createdAtMs, blob)))
  {
    var s' := Next(s, Create(r, createdAtMs, blob));
    assert CountInv(s, r.id);
    forall id | id in s.store.rows ensures id in s.created {
      assert RowInv(s, id);
    }
    forall id | id in s'.store.rows ensures RowInv(s', id) {
      if id != r.id {
        assert RowInv(s, id);
      }
    }
    forall id | id in s'.store.blobs ensures BlobInv(s', id) {
      if id != r.id {
        assert BlobInv(s, id);
      }
    }
    forall id ensures CountInv(s', id) && LagInv(s', id) {
      assert CountInv(s, id) && LagInv(s, id);
    }
    forall q | q in s'.requests ensures RequestInv(s', q) {
      assert RequestInv(s, q);
    }
  }

  lemma RequestStepKeeps(s: System, step: Step)
    requires Inv(s) && (step.BeginOpen? || step.ReadBlob?)
    ensures Inv(Next(s, step))
  {
    var s' := Next(s, step);
    assert s'.store == s.store && s'.created == s.created && s'.log == s.log && s'.lagging == s.lagging;
    forall id | id in s'.store.rows ensures RowInv(s', id) {
      assert RowInv(s, id);
    }
    forall id | id in s'.store.blobs ensures BlobInv(s', id) {
      assert BlobInv(s, id);
    }
    forall id ensures CountInv(s', id) && LagInv(s', id) {
      assert CountInv(s, id) && LagInv(s, id);
    }
    forall q | q in s'.requests ensures RequestInv(s', q) {
      if q in s.requests {
        assert RequestInv(s, q);
        var id := if s.requests[q].Answered? then "" else s.requests[q].id;
        assert id in s.store.blobs ==> BlobInv(s, id);
        assert id in s.store.rows ==> RowInv(s, id);
      }
    }
  }

  /** The heart of the handler: what a request holds when it wins an open. */
  lemma WinnerHoldsTheBytes(s: System, q: RequestId, nowMs: int)
    requires Inv(s) && q in s.requests && s.requests[q].HasRead?
    requires IncrementOpens(s.store, s.requests[q].id, nowMs).1.Some?
    ensures var r := s.requests[q];
            r.id in s.created && (r.late <==> r.blob.Some?) && (r.late ==> r.blob == Some(s.created[r.id].blob))
  {
    assert RequestInv(s, q);
    assert RowInv(s, s.requests[q].id);
  }

  lemma ConsumeKeepsRow(s: System, q: RequestId, nowMs: int, id: Id)
    requires Inv(s) && q in s.requests && s.requests[q].HasRead?
    requires id in Next(s, Consume(q, nowMs)).store.rows
    ensures RowInv(Next(s, Consume(q, nowMs)), id)
  {
    var mine := s.requests[q].id;
    var row := IncrementOpens(s.store, mine, nowMs).1;
    assert RowInv(s, id);
    LogGrows(s.log, Answer(mine, s.requests[q].blob, row), id);
    hide Deliveries, Burns, Inv;
    if id != mine || row.None? {
      assert Next(s, Consume(q, nowMs)).store.rows[id] == s.store.rows[id];
    }
  }

  lemma ConsumeKeepsCount(s: System, q: RequestId, nowMs: int, id: Id)
    requires Inv(s) && q in s.requests && s.requests[q].HasRead?
    ensures CountInv(Next(s, Consume(q, nowMs)), id)
  {
    var mine := s.requests[q].id;
    var row := IncrementOpens(s.store, mine, nowMs).1;
    assert CountInv(s, id);
    assert id in s.store.rows ==> RowInv(s, id);
    LogGrows(s.log, Answer(mine, s.requests[q].blob, row), id);
    hide Deliveries, Burns, Inv;
  }

  lemma ConsumeKeepsLog(s: System, q: RequestId, nowMs: int)
    requires Inv(s) && q in s.requests && s.requests[q].HasRead?
    ensures LogInv(Next(s, Consume(q, nowMs)))
  {
    var id := s.requests[q].id;
    if IncrementOpens(s.store, id, nowMs).1.Some? {
      WinnerHoldsTheBytes(s, q, nowMs);
      assert RowInv(s, id);
    }
  }

  lemma ConsumeKeeps(s: System, q: RequestId, nowMs: int)
    requires Inv(s) && q in s.requests && s.requests[q].HasRead?
    ensures Inv(Next(s, Consume(q, nowMs)))
  {
    var s' := Next(s, Consume(q, nowMs));
    forall id | id in s'.store.rows ensures RowInv(s', id) {
      ConsumeKeepsRow(s, q, nowMs, id);
    }
    forall id ensures CountInv(s', id) {
      ConsumeKeepsCount(s, q, nowMs, id);
    }
    ConsumeKeepsLog(s, q, nowMs);
    forall id ensures LagInv(s', id) && (id in s'.store.blobs ==> BlobInv(s', id)) {
      ConsumeKeepsBlob(s, q, nowMs, id);
    }
    forall p | p in s'.requests ensures RequestInv(s', p) {
      ConsumeKeepsRequest(s, q, nowMs, p);
    }
    hide RowInv, CountInv, LogInv, LagInv, BlobInv, RequestInv, Next;
  }

  lemma ConsumeKeepsBlob(s: System, q: RequestId, nowMs: int, id: Id)
    requires Inv(s) && q in s.requests && s.requests[q].HasRead?
    ensures var s' := Next(s, Consume(q, nowMs)); LagInv(s', id) && (id in s'.store.blobs ==> BlobInv(s', id))
  {
    assert LagInv(s, id);
    assert id in s.store.blobs ==> BlobInv(s, id);
    hide Inv;
  }

  lemma ConsumeKeepsRequest(s: System, q: RequestId, nowMs: int, p: RequestId)
    requires Inv(s) && q in s.requests && s.requests[q].HasRead? && p in s.requests
    ensures p in Next(s, Consume(q, nowMs)).requests && RequestInv(Next(s, Consume(q, nowMs)), p)
  {
    assert RequestInv(s, p);
    hide Inv;
  }

  /** A step that only ends links: rows keep their counts, none becomes active, blobs go only from links that are not. */
  ghost predicate OnlyEnds(s: System, s': System) {
    && s'.requests == s.requests && s'.created == s.created && s'.log == s.log
    && (forall id :: id in s'.store.rows ==>
          && id in s.store.rows
          && s'.store.rows[id].createdAtMs == s.store.rows[id].createdAtMs
          && s'.store.rows[id].maxOpens == s.store.rows[id].maxOpens
          && s'.store.rows[id].expiresAtMs == s.store.rows[id].expiresAtMs
          && s'.store.rows[id].opensCount == s.store.rows[id].opensCount
          && s'.store.rows[id].tokenHash == s.store.rows[id].tokenHash
          && (s'.store.rows[id].status == Active <==> s'.store.rows[id].terminalAtMs.None?)
          && (s'.store.rows[id].status == Active ==>
                s.store.rows[id].status == Active && (id in s.store.blobs ==> id in s'.store.blobs)))
    && (forall id :: id in s'.store.blobs ==>
          && id in s.store.blobs && s'.store.blobs[id] == s.store.blobs[id]
          && (id in s.store.rows ==> id in s'.store.rows && (s'.store.rows[id].status == Active || id in s'.lagging)))
    && (forall id :: id in s'.lagging ==>
          && (id in s.lagging || id in s.store.rows)
          && (id in s'.store.rows ==> s'.store.rows[id].status != Active && id in s'.store.blobs))
  }

  lemma EndingKeeps(s: System, s': System)
    requires Inv(s) && OnlyEnds(s, s')
    ensures Inv(s')
  {
    forall id | id in s'.store.rows ensures RowInv(s', id) {
      assert RowInv(s, id);
    }
    forall id | id in s'.store.blobs ensures BlobInv(s', id) {
      assert BlobInv(s, id);
    }
    forall id ensures CountInv(s', id) && LagInv(s', id) {
      assert CountInv(s, id) && LagInv(s, id);
      assert id in s.store.rows ==> RowInv(s, id);
    }
    forall q | q in s'.requests ensures RequestInv(s', q) {
      assert RequestInv(s, q);
    }
  }

  /** Where a blob is, and where it is not. */
  ghost predicate Accounted(s: System) {
    && (forall id :: id in s.store.blobs ==> id in s.store.rows && (s.store.rows[id].status == Active || id in s.lagging))
    && (forall id :: id in s.store.rows && s.store.rows[id].status == Active ==> id in s.store.blobs)
    && (forall id :: id in s.lagging && id in s.store.rows ==> s.store.rows[id].status != Active && id in s.store.blobs)
    && (forall id :: id in s.store.rows ==> (s.store.rows[id].status == Active <==> s.store.rows[id].terminalAtMs.None?))
  }

  lemma InvAccounts(s: System)
    requires Inv(s)
    ensures Accounted(s)
  {
    forall id | id in s.store.blobs ensures id in s.store.rows && (s.store.rows[id].status == Active || id in s.lagging) {
      assert BlobInv(s, id);
    }
    forall id | id in s.store.rows && s.store.rows[id].status == Active ensures id in s.store.blobs {
      assert RowInv(s, id);
    }
    forall id | id in s.lagging && id in s.store.rows ensures s.store.rows[id].status != Active && id in s.store.blobs {
      assert LagInv(s, id);
    }
    forall id | id in s.store.rows ensures s.store.rows[id].status == Active <==> s.store.rows[id].terminalAtMs.None? {
      assert RowInv(s, id);
    }
  }

  lemma RevokeEnds(s: System, id: Id, provided: Option<TokenHash>, nowMs: int)
    requires Accounted(s)
    ensures OnlyEnds(s, Next(s, RevokeStep(id, provided, nowMs)))
  {
  }

  lemma ExpireEnds(s: System, nowMs: int)
    requires Accounted(s)
    ensures OnlyEnds(s, Next(s, ExpireStep(nowMs)))
  {
  }

  lemma PurgeEnds(s: System)
    requires Accounted(s)
    ensures OnlyEnds(s, Next(s, PurgeStep))
  {
  }

  lemma PruneEnds(s: System, beforeMs: int)
    requires Accounted(s)
    ensures OnlyEnds(s, Next(s, PruneStep(beforeMs)))
  {
  }

  lemma AdminPurgeEnds(s: System, id: Id, nowMs: int)
    requires Accounted(s)
    ensures OnlyEnds(s, Next(s, AdminPurgeStep(id, nowMs)))
  {
  }

  lemma EndingSteps(s: System, step: Step)
    requires Inv(s)
    requires step.RevokeStep? || step.ExpireStep? || step.PurgeStep? || step.PruneStep? || step.AdminPurgeStep?
    ensures OnlyEnds(s, Next(s, step))
  {
    InvAccounts(s);
    hide Inv, Accounted, Next, OnlyEnds;
    match step {
      case RevokeStep(id, provided, nowMs) => RevokeEnds(s, id, provided, nowMs);
      case ExpireStep(nowMs) => ExpireEnds(s, nowMs);
      case PurgeStep => PurgeEnds(s);
      case PruneStep(beforeMs) => PruneEnds(s, beforeMs);
      case AdminPurgeStep(id, nowMs) => AdminPurgeEnds(s, id, nowMs);
    }
  }

  lemma StepKeepsInv(s: System, step: Step)
    requires Inv(s) && Allowed(s, step)
    ensures Inv(Next(s, step))
  {
    if step.Create? {
      CreateKeeps(s, step.record, step.createdAtMs, step.blob);
    } else if step.BeginOpen? || step.ReadBlob? {
      RequestStepKeeps(s, step);
    } else if step.Consume? {
      if step.request in s.requests && s.requests[step.request].HasRead? {
        ConsumeKeeps(s, step.request, step.nowMs);
      }
    } else {
      EndingSteps(s, step);
      EndingKeeps(s, Next(s, step));
    }
  }

  lemma {:induction false} RunKeepsInv(s: System, steps: seq<Step>)
    requires Inv(s) && AllowedRun(s, steps)
    ensures Inv(Run(s, steps))
    decreases steps
  {
    hide Inv, Next, Allowed;
    if steps != [] {
      StepKeepsInv(s, steps[0]);
      RunKeepsInv(Next(s, steps[0]), steps[1..]);
    }
  }

  // ---- the promises -------------------------------------------------------------------------------

  ghost predicate Reachable(s: System) {
    exists steps :: AllowedRun(Empty, steps) && s == Run(Empty, steps)
  }

  lemma ReachableInv(s: System)
    requires Reachable(s)
    ensures Inv(s)
  {
    var steps :| AllowedRun(Empty, steps) && s == Run(Empty, steps);
    EmptyInv();
    RunKeepsInv(Empty, steps);
  }

  /** A link with a positive limit is delivered at most that often, and only ever as it was created. */
  lemma NeverMoreThanMaxOpens(s: System, id: Id)
    requires Reachable(s)
    ensures id in s.created && s.created[id].maxOpens > 0 ==> Deliveries(s.log, id) <= s.created[id].maxOpens
    ensures id !in s.created ==> Deliveries(s.log, id) == 0
    ensures forall i :: 0 <= i < |s.log| && s.log[i].Delivered? && s.log[i].id == id ==>
              id in s.created && Faithful(s.log[i], s.created[id])
  {
    ReachableInv(s);
    assert CountInv(s, id);
  }

  /** Every open consumed is accounted for: delivered, or burned by a request that read before the create. */
  lemma OpensAreConserved(s: System, id: Id)
    requires Reachable(s) && id in s.store.rows
    ensures s.store.rows[id].opensCount == Deliveries(s.log, id) + Burns(s.log, id)
  {
    ReachableInv(s);
    assert RowInv(s, id);
  }

  /**
   * A request that read after the create and is given a row by `incrementOpens` answers 200 with exactly the bytes
   * created, the final open that purges the blob included; one that read before the create never does.
   */
  lemma WinnerDelivers(s: System, q: RequestId, nowMs: int)
    requires Reachable(s) && q in s.requests && s.requests[q].HasRead?
    ensures var r := s.requests[q]; var row := IncrementOpens(s.store, r.id, nowMs).1;
            var answer := Answer(r.id, r.blob, row);
            && Next(s, Consume(q, nowMs)).log == s.log + [answer]
            && (row.Some? && r.late ==>
                  && r.id in s.created && answer == Delivered(r.id, s.created[r.id].blob, row.value)
                  && Faithful(answer, s.created[r.id]))
            && (row.Some? && !r.late ==> answer == Burned(r.id))
            && (row.None? ==> answer == Refused(r.id))
  {
    ReachableInv(s);
    var r := s.requests[q];
    if IncrementOpens(s.store, r.id, nowMs).1.Some? {
      WinnerHoldsTheBytes(s, q, nowMs);
      assert RowInv(s, r.id);
    }
  }

  /** A blob is stored exactly for active links and for expired ones the purge has not reached. */
  lemma BlobIffActive(s: System, id: Id)
    requires Reachable(s)
    ensures id in s.store.blobs <==>
            id in s.store.rows && (s.store.rows[id].status == Active || id in s.lagging)
    ensures id in s.store.rows && id in s.lagging ==> s.store.rows[id].status != Active
  {
    ReachableInv(s);
    assert LagInv(s, id);
    if id in s.store.rows {
      assert RowInv(s, id);
    }
    if id in s.store.blobs {
      assert BlobInv(s, id);
    }
  }

  // ---- where the source's comments promise more ---------------------------------------------------

  lemma RunFirst(s: System, a: Step, rest: seq<Step>)
    ensures Run(s, [a] + rest) == Run(Next(s, a), rest)
    ensures AllowedRun(s, [a] + rest) <==> Allowed(s, a) && AllowedRun(Next(s, a), rest)
  {
    assert ([a] + rest)[1..] == rest;
  }

  lemma TwoSteps(s: System, a: Step, b: Step)
    requires Allowed(s, a) && Allowed(Next(s, a), b)
    ensures AllowedRun(s, [a, b]) && Run(s, [a, b]) == Next(Next(s, a), b)
  {
    hide Next, Allowed;
    assert [a, b] == [a] + [b] && [b] == [b] + [];
    RunFirst(s, a, [b]);
    RunFirst(Next(s, a), b, []);
  }

  lemma FourSteps(s: System, a: Step, b: Step, c: Step, d: Step)
    requires Allowed(s, a) && Allowed(Next(s, a), b) && Allowed(Next(Next(s, a), b), c)
    requires Allowed(Next(Next(Next(s, a), b), c), d)
    ensures AllowedRun(s, [a, b, c, d]) && Run(s, [a, b, c, d]) == Next(Next(Next(Next(s, a), b), c), d)
  {
    hide Next, Allowed, Run, AllowedRun;
    assert [a, b, c, d] == [a] + [b, c, d] && [b, c, d] == [b] + [c, d];
    RunFirst(s, a, [b, c, d]);
    RunFirst(Next(s, a), b, [c, d]);
    TwoSteps(Next(Next(s, a), b), c, d);
  }

  /** A live row without a blob in hand: whoever reads before the create and consumes after it burns an open. */
  lemma EarlyReaderBurns(r: Record, blob: Blob, nowMs: int)
    requires (r.maxOpens > 0 || r.maxOpens == -1) && nowMs < r.expiresAtMs
    ensures exists s :: Reachable(s) && s.log == [Burned(r.id)] && r.id in s.store.rows && s.store.rows[r.id].opensCount == 1
                        && Deliveries(s.log, r.id) == 0
  {
    var s1 := Next(Empty, BeginOpen(0, r.id));
    var s2 := Next(s1, ReadBlob(0));
    assert s2.requests[0] == HasRead(r.id, None, false) && s2.store == Empty.store && s2.created == map[];
    var s3 := Next(s2, Create(r, None, blob));
    assert s3.store.rows[r.id] == Row(Active, None, r.expiresAtMs, r.maxOpens, 0, r.tokenHash, None);
    var s := Next(s3, Consume(0, nowMs));
    FourSteps(Empty, BeginOpen(0, r.id), ReadBlob(0), Create(r, None, blob), Consume(0, nowMs));
    LogGrows([], Burned(r.id), r.id);
    assert [] + [Burned(r.id)] == [Burned(r.id)];
    assert Reachable(s);
  }

  /** An expired link with its blob: between the first and the second statement of the sweep. */
  lemma ExpiredBeforePurge(r: Record, blob: Blob, nowMs: int)
    requires (r.maxOpens > 0 || r.maxOpens == -1) && r.expiresAtMs <= nowMs
    ensures exists s :: Reachable(s) && r.id in s.store.rows && s.store.rows[r.id].status == Expired
                        && r.id in s.store.blobs && s.store.blobs[r.id] == blob
  {
    var s1 := Next(Empty, Create(r, None, blob));
    var s := Next(s1, ExpireStep(nowMs));
    TwoSteps(Empty, Create(r, None, blob), ExpireStep(nowMs));
    assert Reachable(s);
  }

  // ---- endings ------------------------------------------------------------------------------------

  /** The link was created and is no longer active: revoked, expired, used up, purged or pruned. */
  predicate Ended(s: System, id: Id) {
    id in s.created && (id in s.store.rows ==> s.store.rows[id].status != Active)
  }

  lemma EndedStaysEnded(s: System, step: Step, id: Id)
    requires Inv(s) && Allowed(s, step) && Ended(s, id)
    ensures Ended(Next(s, step), id)
    ensures Deliveries(Next(s, step).log, id) == Deliveries(s.log, id)
  {
    if step.Consume? && step.request in s.requests && s.requests[step.request].HasRead? {
      var r := s.requests[step.request];
      LogGrows(s.log, Answer(r.id, r.blob, IncrementOpens(s.store, r.id, step.nowMs).1), id);
    }
  }

  /** Terminal is absorbing: whatever runs afterwards, an ended link is never delivered again. */
  lemma {:induction false} EndedForGood(s: System, steps: seq<Step>, id: Id)
    requires Inv(s) && AllowedRun(s, steps) && Ended(s, id)
    ensures Ended(Run(s, steps), id)
    ensures Deliveries(Run(s, steps).log, id) == Deliveries(s.log, id)
    decreases steps
  {
    hide Inv, Next, Allowed, Ended;
    if steps != [] {
      StepKeepsInv(s, steps[0]);
      EndedStaysEnded(s, steps[0], id);
      EndedForGood(Next(s, steps[0]), steps[1..], id);
    }
  }

  /**
   * A revoke ends an active link exactly when it brings the token hash the link was created with, or the link was created
   * without one; otherwise it changes nothing at all.
   */
  lemma RevokeNeedsToken(s: System, id: Id, provided: Option<TokenHash>, nowMs: int)
    requires Reachable(s) && id in s.store.rows && s.store.rows[id].status == Active
    ensures id in s.created
    ensures var s' := Next(s, RevokeStep(id, provided, nowMs));
            if s.created[id].tokenHash.None? || s.created[id].tokenHash == provided then Ended(s', id) && id !in s'.store.blobs
            else s' == s
  {
    ReachableInv(s);
    assert RowInv(s, id);
  }
}
