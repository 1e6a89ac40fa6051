/**
 * The link lifecycle as a concurrent protocol. The atomic steps are the statements of the stores behind
 * `LinkMetadataStore` and `CiphertextStore`; an open request takes two of them, and any number of requests
 * interleave with create, revoke, the three statements of the sweep, and the operator purge.
 */
module Links {
  import opened Bytes

  type Id = string
  type Blob = seq<byte>
  type TokenHash = string
  type RequestId = nat

  datatype Status = Active | Revoked | Expired

  /** `createdAtMs` is there on the links of an earlier server version only. */
  datatype Row = Row(
    status: Status,
    createdAtMs: Option<int>,
    expiresAtMs: int,
    maxOpens: int,
    opensCount: nat,
    tokenHash: Option<TokenHash>,
    terminalAtMs: Option<int>)

  datatype Store = Store(rows: map<Id, Row>, blobs: map<Id, Blob>)

  datatype Record = Record(id: Id, expiresAtMs: int, maxOpens: int, tokenHash: Option<TokenHash>)

  // ---- the store contract -------------------------------------------------------------------------

  /** Row and blob in one transaction; a taken id rolls both back. */
  function CreateWithCiphertext(st: Store, r: Record, blob: Blob): Option<Store> {
    if r.id in st.rows then None
    else
      var row := Row(Active, None, r.expiresAtMs, r.maxOpens, 0, r.tokenHash, None);
      Some(Store(st.rows[r.id := row], st.blobs[r.id := blob]))
  }

  /** The same, or with a timestamp what an earlier server version did: it stored when the link was created. */
  function CreateAt(st: Store, r: Record, createdAtMs: Option<int>, blob: Blob): Option<Store> {
    match CreateWithCiphertext(st, r, blob)
    case None => None
    case Some(st') =>
      Some(if createdAtMs.None? then st' else st'.(rows := st'.rows[r.id := st'.rows[r.id].(createdAtMs := createdAtMs)]))
  }

  function OpenedRow(row: Row, nowMs: int): Row {
    var last := row.maxOpens != -1 && row.opensCount + 1 >= row.maxOpens;
    row.(opensCount := row.opensCount + 1,
         status := if last then Expired else row.status,
         terminalAtMs := if last then Some(nowMs) else row.terminalAtMs)
  }

  predicate IsLive(st: Store, id: Id, nowMs: int) {
    id in st.rows && st.rows[id].status == Active && st.rows[id].expiresAtMs > nowMs
  }

  /** Consumes one open of a live link and, with the last one, deletes its blob in the same statement. */
  function IncrementOpens(st: Store, id: Id, nowMs: int): (Store, Option<Row>) {
    if !IsLive(st, id, nowMs) then (st, None)
    else
      var row := OpenedRow(st.rows[id], nowMs);
      (Store(st.rows[id := row], if row.status == Expired then st.blobs - {id} else st.blobs), Some(row))
  }

  /** The token authorizes: it matches the stored hash, or the row never had one. */
  predicate Authorizes(row: Row, provided: Option<TokenHash>) {
    row.tokenHash.None? || row.tokenHash == provided
  }

  function Terminated(st: Store, id: Id, nowMs: int): Store
    requires id in st.rows
  {
    Store(st.rows[id := st.rows[id].(status := Revoked, terminalAtMs := Some(nowMs))], st.blobs - {id})
  }

  function Revoke(st: Store, id: Id, provided: Option<TokenHash>, nowMs: int): Store {
    if id in st.rows && st.rows[id].status == Active && Authorizes(st.rows[id], provided) then Terminated(st, id, nowMs)
    else st
  }

  /** The operator override: no token, and a lingering blob of a terminal row goes too. */
  function AdminPurge(st: Store, id: Id, nowMs: int): Store {
    if id in st.rows && st.rows[id].status == Active then Terminated(st, id, nowMs)
    else st.(blobs := st.blobs - {id})
  }

  predicate PastDue(row: Row, nowMs: int) {
    row.status == Active && row.expiresAtMs <= nowMs
  }

  // The sweep is three statements, so other requests can run between them.

  function MarkExpired(st: Store, nowMs: int): Store {
    st.(rows := map id | id in st.rows ::
      if PastDue(st.rows[id], nowMs) then st.rows[id].(status := Expired, terminalAtMs := Some(nowMs)) else st.rows[id])
  }

  function TerminalIds(st: Store): set<Id> {
    set id | id in st.rows && st.rows[id].status != Active
  }

  function PurgeTerminalBlobs(st: Store): Store {
    st.(blobs := st.blobs - TerminalIds(st))
  }

  predicate Prunable(row: Row, beforeMs: int) {
    row.status != Active && row.terminalAtMs.Some? && row.terminalAtMs.value < beforeMs
  }

  function PruneTerminal(st: Store, beforeMs: int): Store {
    var gone := set id | id in st.rows && Prunable(st.rows[id], beforeMs);
    Store(st.rows - gone, st.blobs - gone)
  }

  // ---- the system ---------------------------------------------------------------------------------

  /** An open request: waiting to read, holding what it read, or answered. `late`: the link existed when it read. */
  datatype Request =
    | Waiting(id: Id)
    | HasRead(id: Id, blob: Option<Blob>, late: bool)
    | Answered

  /** A 200 with the bytes, a 410 that consumed an open, or a 410 that consumed nothing. */
  datatype Response = Delivered(id: Id, bytes: Blob, row: Row) | Burned(id: Id) | Refused(id: Id)

  /** What a create was given: the blob, the metadata it was sealed under, and the hash of the token that revokes it. */
  datatype Original = Original(
    blob: Blob,
    createdAtMs: Option<int>,
    expiresAtMs: int,
    maxOpens: int,
    tokenHash: Option<TokenHash>)

  /** `created` and `log` record what was created and answered; `lagging` the links expired but not yet purged. */
  datatype System = System(
    store: Store,
    requests: map<RequestId, Request>,
    created: map<Id, Original>,
    lagging: set<Id>,
    log: seq<Response>)

  datatype Step =
    | Create(record: Record, createdAtMs: Option<int>, blob: Blob)
    | BeginOpen(request: RequestId, id: Id)
    | ReadBlob(request: RequestId)
    | Consume(request: RequestId, nowMs: int)
    | RevokeStep(id: Id, provided: Option<TokenHash>, nowMs: int)
    | ExpireStep(nowMs: int)
    | PurgeStep
    | PruneStep(beforeMs: int)
    | AdminPurgeStep(id: Id, nowMs: int)

  const Empty: System := System(Store(map[], map[]), map[], map[], {}, [])

  function Answer(id: Id, blob: Option<Blob>, row: Option<Row>): Response {
    if row.None? then Refused(id)
    else if blob.None? then Burned(id)
    else Delivered(id, blob.value, row.value)
  }

  function Next(s: System, step: Step): System {
    match step
    case Create(r, createdAtMs, blob) =>
      (match CreateAt(s.store, r, createdAtMs, blob)
       case None => s
       case Some(st) =>
         var original := Original(blob, createdAtMs, r.expiresAtMs, r.maxOpens, r.tokenHash);
         s.(store := st, created := s.created[r.id := original]))
    case BeginOpen(q, id) => if q in s.requests then s else s.(requests := s.requests[q := Waiting(id)])
    case ReadBlob(q) =>
      if q !in s.requests || !s.requests[q].Waiting? then s
      else
        var id := s.requests[q].id;
        var blob := if id in s.store.blobs then Some(s.store.blobs[id]) else None;
        s.(requests := s.requests[q := HasRead(id, blob, id in s.created)])
    case Consume(q, nowMs) =>
      if q !in s.requests || !s.requests[q].HasRead? then s
      else
        var HasRead(id, blob, _) := s.requests[q];
        var (st, row) := IncrementOpens(s.store, id, nowMs);
        s.(store := st, requests := s.requests[q := Answered], log := s.log + [Answer(id, blob, row)])
    case RevokeStep(id, provided, nowMs) => s.(store := Revoke(s.store, id, provided, nowMs))
    case ExpireStep(nowMs) =>
      s.(store := MarkExpired(s.store, nowMs),
         lagging := s.lagging + set id | id in s.store.rows && PastDue(s.store.rows[id], nowMs))
    case PurgeStep => s.(store := PurgeTerminalBlobs(s.store), lagging := {})
    case PruneStep(beforeMs) => s.(store := PruneTerminal(s.store, beforeMs))
    case AdminPurgeStep(id, nowMs) => s.(store := AdminPurge(s.store, id, nowMs), lagging := s.lagging - {id})
  }

  /** Ids are never reused, and the create handler lets only these numbers of opens through. */
  predicate Allowed(s: System, step: Step) {
    step.Create? ==> step.record.id !in s.created && (step.record.maxOpens > 0 || step.record.maxOpens == -1)
  }

  function Run(s: System, steps: seq<Step>): System
    decreases steps
  {
    if steps == [] then s else Run(Next(s, steps[0]), steps[1..])
  }

  predicate AllowedRun(s: System, steps: seq<Step>)
    decreases steps
  {
    steps == [] || (Allowed(s, steps[0]) && AllowedRun(Next(s, steps[0]), steps[1..]))
  }

  // ---- counting -----------------------------------------------------------------------------------

  /** The 200 responses for one link. */
  function Deliveries(log: seq<Response>, id: Id): nat {
    if log == [] then 0
    else Deliveries(log[..|log| - 1], id) + (if log[|log| - 1].Delivered? && log[|log| - 1].id == id then 1 else 0)
  }

  /** The opens consumed by requests that had read before the link existed. */
  function Burns(log: seq<Response>, id: Id): nat {
    if log == [] then 0
    else Burns(log[..|log| - 1], id) + (if log[|log| - 1].Burned? && log[|log| - 1].id == id then 1 else 0)
  }

  lemma LogGrows(log: seq<Response>, r: Response, id: Id)
    ensures Deliveries(log + [r], id) == Deliveries(log, id) + (if r.Delivered? && r.id == id then 1 else 0)
    ensures Burns(log + [r], id) == Burns(log, id) + (if r.Burned? && r.id == id then 1 else 0)
  {
    assert (log + [r])[..|log|] == log;
  }

  // ---- the invariant ------------------------------------------------------------------------------

  /** The metadata the message was sealed under. */
  predicate SameMetadata(row: Row, o: Original) {
    row.createdAtMs == o.createdAtMs && row.expiresAtMs == o.expiresAtMs && row.maxOpens == o.maxOpens
  }

  ghost predicate RowInv(s: System, id: Id)
    requires id in s.store.rows
  {
    var row := s.store.rows[id];
    && id in s.created && SameMetadata(row, s.created[id]) && row.tokenHash == s.created[id].tokenHash
    && (row.status == Active <==> row.terminalAtMs.None?)
    && row.opensCount == Deliveries(s.log, id) + Burns(s.log, id)
    && (row.maxOpens > 0 ==> row.opensCount <= row.maxOpens && (row.status == Active ==> row.opensCount < row.maxOpens))
    && (row.status == Active ==> id in s.store.blobs)
  }

  /** A link that waits for the purge has expired and still has its blob. */
  ghost predicate LagInv(s: System, id: Id) {
    && (id in s.lagging ==> id in s.created)
    && (id in s.lagging && id in s.store.rows ==> s.store.rows[id].status != Active && id in s.store.blobs)
  }

  /** A blob is stored for an active link, or for one that expired and still waits for the purge; it is what was created. */
  ghost predicate BlobInv(s: System, id: Id)
    requires id in s.store.blobs
  {
    && id in s.store.rows && id in s.created && s.store.blobs[id] == s.created[id].blob
    && (s.store.rows[id].status == Active || id in s.lagging)
  }

  ghost predicate CountInv(s: System, id: Id) {
    && (id !in s.created ==> Deliveries(s.log, id) == 0 && Burns(s.log, id) == 0)
    && (id in s.created && s.created[id].maxOpens > 0 ==> Deliveries(s.log, id) + Burns(s.log, id) <= s.created[id].maxOpens)
  }

  ghost predicate RequestInv(s: System, q: RequestId)
    requires q in s.requests
  {
    var r := s.requests[q];
    r.HasRead? ==>
      && (r.blob.Some? ==> r.late)
      && (r.late ==> r.id in s.created)
      && (r.blob.Some? ==> r.blob.value == s.created[r.id].blob)
      && (r.late && r.id in s.store.rows && s.store.rows[r.id].status == Active ==> r.blob.Some?)
  }

  /** A 200 response carries the bytes of the create and the metadata they were sealed under. */
  predicate Faithful(r: Response, o: Original)
    requires r.Delivered?
  {
    r.bytes == o.blob && SameMetadata(r.row, o)
  }

  ghost predicate LogInv(s: System) {
    forall i :: 0 <= i < |s.log| && s.log[i].Delivered? ==>
      s.log[i].id in s.created && Faithful(s.log[i], s.created[s.log[i].id])
  }

  ghost predicate Inv(s: System) {
    && (forall id :: id in s.store.rows ==> RowInv(s, id))
    && (forall id :: id in s.store.blobs ==> BlobInv(s, id))
    && (forall id :: CountInv(s, id))
    && (forall id :: LagInv(s, id))
    && (forall q :: q in s.requests ==> RequestInv(s, q))
    && LogInv(s)
  }
}
