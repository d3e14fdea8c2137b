/**
 Durable staging of client multipart uploads: the rows of the repository and the
 effect of each of its transactions on them. A transaction that fails rolls back,
 so each step below yields either a new table state or an error.
 */
module Multipart {
  import opened Common

  const MAX_ACTIVE_UPLOADS: nat := 16
  const MAX_PARTS: nat := 10_000
  const DEFAULT_EXPIRY_MS: int := 86_400_000

  datatype Error =
    NotFound | NotOpen | QuotaExceeded | InvalidPart | CompletionConflict | Fenced | Persistence

  datatype Limits = Limits(tenantBytes: nat, globalBytes: nat)

  datatype Identity =
    Identity(tenant: string, policy: string, bucket: string, key: string, uploadId: string)

  datatype Lifecycle = Open | Completing | Completed | Aborted | Expired

  datatype CompletionResult = CompletionResult(
    etag: Option<string>, checksum: string, version: Option<string>, sourceBytes: nat, sizeBytes: nat)

  datatype Upload = Upload(
    identity: Identity,
    maxStagedBytes: nat,
    lifecycle: Lifecycle,
    staged: nat,
    reserved: nat,
    expiresAt: int,
    tombstone: Option<int>,
    fingerprint: Option<string>,
    leaseOwner: Option<string>,
    leaseExpires: Option<int>,
    token: nat,
    result: Option<CompletionResult>)

  datatype Part = Part(
    uploadId: string, partNumber: nat, attempt: nat, artifactKey: string,
    etag: string, checksum: string, size: nat)

  datatype AttemptState = PENDING | CURRENT | RETIRED

  datatype Attempt = Attempt(part: Part, reserved: nat, state: AttemptState)

  datatype PendingPart = PendingPart(
    uploadId: string, partNumber: nat, attempt: nat, artifactKey: string, reserved: nat)

  datatype CompletePart = CompletePart(partNumber: nat, etag: string, checksum: Option<string>)

  datatype Acquire =
    | Acquired(token: nat, selected: seq<Part>)
    | Replayed(result: CompletionResult)
    | Busy

  datatype Scope = GlobalScope | TenantScope(tenant: string)

  datatype Quota = Quota(limit: nat, staged: nat, reserved: nat)

  /** The three tables, with the quota limits the process was configured with. */
  datatype Db = Db(
    limits: Limits,
    uploads: map<string, Upload>,
    attempts: map<string, Attempt>,
    quotas: map<Scope, Quota>)

  predicate Authorized(db: Db, identity: Identity) {
    identity.uploadId in db.uploads && db.uploads[identity.uploadId].identity == identity
  }

  function ScopeLimit(limits: Limits, scope: Scope): nat {
    if scope.GlobalScope? then limits.globalBytes else limits.tenantBytes
  }

  /** The quota row of a scope after `ensure_quota_scope`: inserted only when missing. */
  function QuotaRow(db: Db, scope: Scope): Quota {
    if scope in db.quotas then db.quotas[scope] else Quota(ScopeLimit(db.limits, scope), 0, 0)
  }

  // ---- create -------------------------------------------------------------------------

  function OpenUploads(uploads: map<string, Upload>, tenant: string): set<string> {
    set id | id in uploads && uploads[id].identity.tenant == tenant && uploads[id].lifecycle.Open?
  }

  function NewUpload(identity: Identity, maxStagedBytes: nat, expiresAt: int): Upload {
    Upload(identity, maxStagedBytes, Open, 0, 0, expiresAt, None, None, None, None, 0, None)
  }

  function Create(db: Db, identity: Identity, maxStagedBytes: nat, expiresAt: int): Result<Db, Error> {
    if |OpenUploads(db.uploads, identity.tenant)| >= MAX_ACTIVE_UPLOADS then Err(QuotaExceeded)
    else if identity.uploadId in db.uploads then Err(Persistence)
    else Ok(db.(uploads := db.uploads[identity.uploadId := NewUpload(identity, maxStagedBytes, expiresAt)]))
  }

  // ---- begin_part ---------------------------------------------------------------------

  predicate OfPart(attempt: Attempt, uploadId: string, partNumber: nat) {
    attempt.part.uploadId == uploadId && attempt.part.partNumber == partNumber
  }

  /** `attempt` is one more than the largest attempt number stored for the part. */
  predicate IsNextAttempt(attempts: map<string, Attempt>, uploadId: string, partNumber: nat, attempt: nat) {
    && attempt >= 1
    && (forall k :: k in attempts && OfPart(attempts[k], uploadId, partNumber) ==>
                      attempts[k].part.attempt < attempt)
    && (attempt == 1 || exists k :: k in attempts && OfPart(attempts[k], uploadId, partNumber) &&
                                    attempts[k].part.attempt == attempt - 1)
  }

  predicate Fits(quota: Quota, extra: nat) {
    quota.staged + quota.reserved + extra <= U64_MAX && quota.staged + quota.reserved + extra <= quota.limit
  }

  function Reserve(quota: Quota, bytes: nat): Quota {
    quota.(reserved := quota.reserved + bytes)
  }

  /** `key` is the generated artifact key, `attempt` the answer of the attempt query. */
  function BeginPart(db: Db, identity: Identity, partNumber: nat, bytes: nat, now: int, key: string, attempt: nat)
    : Result<(Db, PendingPart), Error>
  {
    if partNumber == 0 || partNumber > MAX_PARTS || bytes == 0 then Err(InvalidPart)
    else if bytes > I64_MAX then Err(QuotaExceeded)
    else if !Authorized(db, identity) then Err(NotFound)
    else
      var upload := db.uploads[identity.uploadId];
      if !upload.lifecycle.Open? || upload.expiresAt <= now then Err(NotOpen)
      else if upload.staged + upload.reserved + bytes > U64_MAX then Err(QuotaExceeded)
      else if upload.staged + upload.reserved + bytes > upload.maxStagedBytes then Err(QuotaExceeded)
      else if db.limits.globalBytes > I64_MAX || db.limits.tenantBytes > I64_MAX then Err(QuotaExceeded)
      else
        var tenant := TenantScope(identity.tenant);
        var globalRow := QuotaRow(db, GlobalScope);
        var tenantRow := QuotaRow(db, tenant);
        if !Fits(globalRow, bytes) || !Fits(tenantRow, bytes) then Err(QuotaExceeded)
        else if attempt > I32_MAX || key in db.attempts then Err(Persistence)
        else if upload.reserved + bytes > I64_MAX || globalRow.reserved + bytes > I64_MAX
                || tenantRow.reserved + bytes > I64_MAX then Err(QuotaExceeded)
        else
          var part := Part(identity.uploadId, partNumber, attempt, key, "", "", 0);
          Ok((db.(uploads := db.uploads[identity.uploadId := upload.(reserved := upload.reserved + bytes)],
                  attempts := db.attempts[key := Attempt(part, bytes, PENDING)],
                  quotas := db.quotas[GlobalScope := Reserve(globalRow, bytes)][tenant := Reserve(tenantRow, bytes)]),
              PendingPart(identity.uploadId, partNumber, attempt, key, bytes)))
  }

  // ---- commit_part --------------------------------------------------------------------

  predicate IsCurrent(attempts: map<string, Attempt>, k: string, uploadId: string, partNumber: nat) {
    k in attempts && attempts[k].state.CURRENT? && OfPart(attempts[k], uploadId, partNumber)
  }

  predicate Describes(pending: PendingPart, part: Part) {
    && part.uploadId == pending.uploadId
    && part.partNumber == pending.partNumber
    && part.attempt == pending.attempt
    && part.artifactKey == pending.artifactKey
    && part.size <= pending.reserved
  }

  /** The attempt table after the old current rows are retired and the pending row is published. */
  function Published(attempts: map<string, Attempt>, uploadId: string, part: Part): map<string, Attempt>
    requires part.artifactKey in attempts
  {
    map k | k in attempts ::
      if k == part.artifactKey then
        Attempt(attempts[k].part.(etag := part.etag, checksum := part.checksum, size := part.size), 0, CURRENT)
      else if IsCurrent(attempts, k, uploadId, part.partNumber) then attempts[k].(state := RETIRED)
      else attempts[k]
  }

  /** Violation of the unique index on (upload, part number) over current rows. */
  predicate CurrentClash(attempts: map<string, Attempt>) {
    exists j, k :: j in attempts && k in attempts && j != k && attempts[j].state.CURRENT? &&
      IsCurrent(attempts, k, attempts[j].part.uploadId, attempts[j].part.partNumber)
  }

  function Settle(quota: Quota, reserved: nat, actual: nat): Quota
    requires reserved <= quota.reserved
  {
    quota.(staged := quota.staged + actual, reserved := quota.reserved - reserved)
  }

  predicate Withdrawable(db: Db, upload: Upload, bytes: nat) {
    var tenant := TenantScope(upload.identity.tenant);
    && GlobalScope in db.quotas && tenant in db.quotas
    && bytes <= upload.reserved
    && bytes <= db.quotas[GlobalScope].reserved
    && bytes <= db.quotas[tenant].reserved
  }

  function CommitPart(db: Db, identity: Identity, pending: PendingPart, part: Part): Result<Db, Error> {
    if !Describes(pending, part) then Err(InvalidPart)
    else if !Authorized(db, identity) then Err(NotFound)
    else
      var upload := db.uploads[identity.uploadId];
      var key := pending.artifactKey;
      if !upload.lifecycle.Open? then Err(NotOpen)
      else if key !in db.attempts || !db.attempts[key].state.PENDING? then Err(NotFound)
      else if db.attempts[key].part.uploadId != identity.uploadId then Err(NotFound)
      else if pending.reserved > I64_MAX then Err(QuotaExceeded)
      else if db.attempts[key].reserved != pending.reserved then Err(NotFound)
      else if !Withdrawable(db, upload, pending.reserved) then Err(Persistence)
      else
        var attempts := Published(db.attempts, identity.uploadId, part);
        var tenant := TenantScope(identity.tenant);
        if CurrentClash(attempts) then Err(Persistence)
        else if upload.staged + part.size > I64_MAX || db.quotas[GlobalScope].staged + part.size > I64_MAX
                || db.quotas[tenant].staged + part.size > I64_MAX then Err(QuotaExceeded)
        else
          Ok(db.(uploads := db.uploads[identity.uploadId :=
                   upload.(reserved := upload.reserved - pending.reserved, staged := upload.staged + part.size)],
                 attempts := attempts,
                 quotas := db.quotas
                   [GlobalScope := Settle(db.quotas[GlobalScope], pending.reserved, part.size)]
                   [tenant := Settle(db.quotas[tenant], pending.reserved, part.size)]))
  }

  // ---- release_artifact (discard_pending and confirm_artifact_deleted) -----------------

  function Release(quota: Quota, attempt: Attempt): Quota
    requires if attempt.state.PENDING? then attempt.reserved <= quota.reserved else attempt.part.size <= quota.staged
  {
    if attempt.state.PENDING? then quota.(reserved := quota.reserved - attempt.reserved)
    else quota.(staged := quota.staged - attempt.part.size)
  }

  predicate Releasable(quota: Quota, attempt: Attempt) {
    if attempt.state.PENDING? then attempt.reserved <= quota.reserved else attempt.part.size <= quota.staged
  }

  function ReleaseArtifact(db: Db, key: string): Result<Db, Error> {
    if key !in db.attempts then Ok(db)
    else
      var attempt := db.attempts[key];
      var id := attempt.part.uploadId;
      if id !in db.uploads then Err(Persistence)
      else
        var upload := db.uploads[id];
        var tenant := TenantScope(upload.identity.tenant);
        if GlobalScope !in db.quotas || tenant !in db.quotas then Err(Persistence)
        else if !Releasable(db.quotas[GlobalScope], attempt) || !Releasable(db.quotas[tenant], attempt)
                || !Releasable(Quota(0, upload.staged, upload.reserved), attempt) then Err(Persistence)
        else
          var left := Release(Quota(0, upload.staged, upload.reserved), attempt);
          Ok(db.(uploads := db.uploads[id := upload.(staged := left.staged, reserved := left.reserved)],
                 attempts := db.attempts - {key},
                 quotas := db.quotas
                   [GlobalScope := Release(db.quotas[GlobalScope], attempt)]
                   [tenant := Release(db.quotas[tenant], attempt)]))
  }

  // ---- completion ---------------------------------------------------------------------

  /** The current parts of an upload, by part number. */
  ghost function CurrentParts(attempts: map<string, Attempt>, uploadId: string): map<nat, Part> {
    map n | 1 <= n <= MAX_PARTS && HasCurrent(attempts, uploadId, n) ::
      var k :| IsCurrent(attempts, k, uploadId, n); attempts[k].part
  }

  ghost predicate HasCurrent(attempts: map<string, Attempt>, uploadId: string, partNumber: nat) {
    exists k :: IsCurrent(attempts, k, uploadId, partNumber)
  }

  predicate Matches(part: Part, request: CompletePart) {
    part.etag == request.etag && (request.checksum.Some? ==> request.checksum.value == part.checksum)
  }

  function SelectFrom(current: map<nat, Part>, requested: seq<CompletePart>, previous: nat): (r: Result<seq<Part>,
      Error>)
    ensures r.Err? ==> r.error == InvalidPart
    ensures r.Ok? ==> |r.value| == |requested|
  {
    if requested == [] then Ok([])
    else
      var n := requested[0].partNumber;
      if n <= previous || n !in current || !Matches(current[n], requested[0]) then Err(InvalidPart)
      else
        match SelectFrom(current, requested[1..], n)
        case Err(e) => Err(e)
        case Ok(rest) => Ok([current[n]] + rest)
  }

  /** `validate_selected_parts`: a non-empty request, numbers strictly ascending from 1. */
  function SelectParts(current: map<nat, Part>, requested: seq<CompletePart>): Result<seq<Part>, Error> {
    if requested == [] then Err(InvalidPart) else SelectFrom(current, requested, 0)
  }

  ghost function AcquireCompletion(db: Db, identity: Identity, fingerprint: string, request: seq<CompletePart>,
                                   owner: string, leaseExpires: int, now: int): Result<(Db, Acquire), Error> {
    if !Authorized(db, identity) then Err(NotFound)
    else
      var upload := db.uploads[identity.uploadId];
      if upload.lifecycle.Completed? then
        if upload.result.None? then Err(Persistence)
        else if upload.fingerprint == Some(fingerprint) then Ok((db, Replayed(upload.result.value)))
        else Err(CompletionConflict)
      else if upload.lifecycle.Aborted? || upload.lifecycle.Expired? then Err(NotOpen)
      else if upload.lifecycle.Completing? && upload.fingerprint != Some(fingerprint) then Err(CompletionConflict)
      else if upload.lifecycle.Completing? && upload.leaseExpires.Some? && upload.leaseExpires.value > now then
        Ok((db, Busy))
      else if upload.lifecycle.Open? && upload.expiresAt <= now then Err(NotOpen)
      else
        match SelectParts(CurrentParts(db.attempts, identity.uploadId), request)
        case Err(e) => Err(e)
        case Ok(selected) =>
          if upload.token + 1 > I64_MAX then Err(Persistence)
          else
            Ok((db.(uploads := db.uploads[identity.uploadId := upload.(
                       lifecycle := Completing, fingerprint := Some(fingerprint), leaseOwner := Some(owner),
                       leaseExpires := Some(leaseExpires), token := upload.token + 1)]),
                Acquired(upload.token + 1, selected)))
  }

  function RenewCompletion(db: Db, identity: Identity, token: nat, leaseExpires: int): Result<Db, Error> {
    if identity.uploadId !in db.uploads then Err(Fenced)
    else
      var upload := db.uploads[identity.uploadId];
      if upload.identity.tenant != identity.tenant || !upload.lifecycle.Completing? || upload.token != token
      then Err(Fenced)
      else Ok(db.(uploads := db.uploads[identity.uploadId := upload.(leaseExpires := Some(leaseExpires))]))
  }

  /** The first of the two statements of `complete_completion`: a plain read. */
  function CheckLease(db: Db, identity: Identity, token: nat, now: int): Result<(), Error> {
    if !Authorized(db, identity) then Err(NotFound)
    else
      var upload := db.uploads[identity.uploadId];
      if upload.lifecycle.Completing? && upload.token == token && upload.leaseExpires.Some?
         && upload.leaseExpires.value > now then Ok(())
      else Err(Fenced)
  }

  /** The second statement: a compare-and-set on lifecycle and token that no longer looks at the lease. */
  function CompareAndComplete(db: Db, uploadId: string, token: nat, result: CompletionResult, now: int)
    : Result<Db, Error>
  {
    if uploadId !in db.uploads then Err(Fenced)
    else
      var upload := db.uploads[uploadId];
      if !upload.lifecycle.Completing? || upload.token != token then Err(Fenced)
      else Ok(db.(uploads := db.uploads[uploadId := upload.(
                     lifecycle := Completed, result := Some(result), leaseOwner := None, leaseExpires := None,
                     tombstone := Some(now + DEFAULT_EXPIRY_MS))]))
  }

  // ---- abort, reap, retire ------------------------------------------------------------

  function AbortUpload(db: Db, identity: Identity, now: int): Result<Db, Error> {
    if !Authorized(db, identity) then Err(NotFound)
    else
      var upload := db.uploads[identity.uploadId];
      if upload.lifecycle.Aborted? then Ok(db)
      else if !upload.lifecycle.Open? then Err(NotOpen)
      else Ok(db.(uploads := db.uploads[identity.uploadId :=
                    upload.(lifecycle := Aborted, tombstone := Some(now + DEFAULT_EXPIRY_MS))]))
  }

  predicate Reapable(db: Db, uploadId: string, now: int) {
    uploadId in db.uploads && db.uploads[uploadId].lifecycle.Open? && db.uploads[uploadId].expiresAt <= now
  }

  function ReapUpload(db: Db, uploadId: string, now: int): Db
    requires Reapable(db, uploadId, now)
  {
    db.(uploads := db.uploads[uploadId :=
          db.uploads[uploadId].(lifecycle := Expired, tombstone := Some(now + DEFAULT_EXPIRY_MS))])
  }

  predicate HasAttempts(attempts: map<string, Attempt>, uploadId: string) {
    exists k :: k in attempts && attempts[k].part.uploadId == uploadId
  }

  /** The upload has its outcome, and the time to remember it is over. */
  predicate Settled(db: Db, uploadId: string, now: int) {
    && uploadId in db.uploads
    && (var upload := db.uploads[uploadId];
        && (upload.lifecycle.Completed? || upload.lifecycle.Aborted? || upload.lifecycle.Expired?)
        && upload.tombstone.Some? && upload.tombstone.value <= now)
  }

  predicate Retirable(db: Db, uploadId: string, now: int) {
    Settled(db, uploadId, now) && !HasAttempts(db.attempts, uploadId)
  }

  predicate Deletable(db: Db, identity: Identity) {
    && Authorized(db, identity)
    && (db.uploads[identity.uploadId].lifecycle.Aborted? || db.uploads[identity.uploadId].lifecycle.Expired?)
    && !HasAttempts(db.attempts, identity.uploadId)
  }

  function DropUpload(db: Db, uploadId: string): Db {
    db.(uploads := db.uploads - {uploadId})
  }
}
