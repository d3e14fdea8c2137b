/**
 Byte accounting of the staging tables: what an upload row, a tenant row and the global row say
 is always the sum over the rows below them, and no limit is ever exceeded.
 */
module MultipartAccounting {
  import opened Common
  import opened Multipart

  ghost function ReservedBy(attempts: map<string, Attempt>, uploadId: string): map<string, nat> {
    map k | k in attempts ::
      if attempts[k].part.uploadId == uploadId && attempts[k].state.PENDING? then attempts[k].reserved else 0
  }

  ghost function StagedBy(attempts: map<string, Attempt>, uploadId: string): map<string, nat> {
    map k | k in attempts ::
      if attempts[k].part.uploadId == uploadId && !attempts[k].state.PENDING? then attempts[k].part.size else 0
  }

  predicate InScope(upload: Upload, scope: Scope) {
    scope.GlobalScope? || upload.identity.tenant == scope.tenant
  }

  ghost function ReservedIn(uploads: map<string, Upload>, scope: Scope): map<string, nat> {
    map id | id in uploads :: if InScope(uploads[id], scope) then uploads[id].reserved else 0
  }

  ghost function StagedIn(uploads: map<string, Upload>, scope: Scope): map<string, nat> {
    map id | id in uploads :: if InScope(uploads[id], scope) then uploads[id].staged else 0
  }

  /** An upload row carries exactly the bytes of its attempts, within its own limit. */
  ghost predicate UploadBalanced(db: Db, id: string)
    requires id in db.uploads
  {
    var upload := db.uploads[id];
    && upload.reserved == Sum(ReservedBy(db.attempts, id))
    && upload.staged == Sum(StagedBy(db.attempts, id))
    && upload.staged + upload.reserved <= upload.maxStagedBytes
  }

  /** A quota row carries exactly the bytes of the uploads in its scope, within its limit. */
  ghost predicate QuotaBalanced(db: Db, scope: Scope) {
    var row := QuotaRow(db, scope);
    && row.reserved == Sum(ReservedIn(db.uploads, scope))
    && row.staged == Sum(StagedIn(db.uploads, scope))
    && row.staged + row.reserved <= row.limit
    && (scope in db.quotas ==> row.limit == ScopeLimit(db.limits, scope) <= I64_MAX)
  }

  /** Keys and references between the tables, and the unique index over current rows. */
  ghost predicate RowsLinked(db: Db) {
    && (forall id :: id in db.uploads ==> db.uploads[id].identity.uploadId == id)
    && (forall k :: k in db.attempts ==>
          && db.attempts[k].part.artifactKey == k
          && 1 <= db.attempts[k].part.partNumber <= MAX_PARTS
          && db.attempts[k].part.uploadId in db.uploads
          && GlobalScope in db.quotas
          && TenantScope(db.uploads[db.attempts[k].part.uploadId].identity.tenant) in db.quotas)
    && !CurrentClash(db.attempts)
  }

  ghost predicate Balanced(db: Db) {
    && RowsLinked(db)
    && (forall id :: id in db.uploads ==> UploadBalanced(db, id))
    && (forall scope :: QuotaBalanced(db, scope))
  }

  ghost predicate SameBytes(a: Upload, b: Upload) {
    a.identity == b.identity && a.maxStagedBytes == b.maxStagedBytes && a.staged == b.staged && a.reserved == b.reserved
  }

  // ---- how sums move -------------------------------------------------------------------

  lemma {:induction false} ScopeSumsMove(uploads: map<string, Upload>, id: string, upload: Upload, scope: Scope)
    requires id in uploads ==> uploads[id].identity.tenant == upload.identity.tenant
    ensures var before := if id in uploads && InScope(uploads[id], scope) then uploads[id]
            else upload.(staged := 0, reserved := 0);
            var after := if InScope(upload, scope) then upload else upload.(staged := 0, reserved := 0);
            && Sum(StagedIn(uploads[id := upload], scope)) + before.staged ==
               Sum(StagedIn(uploads, scope)) + after.staged
            && Sum(ReservedIn(uploads[id := upload], scope)) + before.reserved ==
               Sum(ReservedIn(uploads, scope)) + after.reserved
  {
    hide Sum;
    var s := if InScope(upload, scope) then upload.staged else 0;
    var r := if InScope(upload, scope) then upload.reserved else 0;
    assert StagedIn(uploads[id := upload], scope) == StagedIn(uploads, scope)[id := s];
    assert ReservedIn(uploads[id := upload], scope) == ReservedIn(uploads, scope)[id := r];
    SumUpdate(StagedIn(uploads, scope), id, s);
    SumUpdate(ReservedIn(uploads, scope), id, r);
  }

  /** An upload and a quota row of its scope move by the same amounts: the row stays the sum. */
  lemma {:induction false} QuotaMoves(db: Db, db': Db, id: string, scope: Scope)
    requires QuotaBalanced(db, scope) && db'.limits == db.limits
    requires id in db.uploads && id in db'.uploads && db'.uploads == db.uploads[id := db'.uploads[id]]
    requires db'.uploads[id].identity == db.uploads[id].identity
    requires var row, row' := QuotaRow(db, scope), QuotaRow(db', scope);
             if InScope(db.uploads[id], scope) then
               && row'.limit == row.limit && row'.staged + row'.reserved <= row'.limit
               && (scope in db'.quotas ==> row.limit == ScopeLimit(db.limits, scope) <= I64_MAX)
               && row'.staged + db.uploads[id].staged == row.staged + db'.uploads[id].staged
               && row'.reserved + db.uploads[id].reserved == row.reserved + db'.uploads[id].reserved
             else
               (scope in db'.quotas <==> scope in db.quotas) && row' == row
    ensures QuotaBalanced(db', scope)
  {
    ScopeSumsMove(db.uploads, id, db'.uploads[id], scope);
  }

  lemma {:induction false} LifecycleRows(db: Db, id: string, upload: Upload)
    requires RowsLinked(db) && id in db.uploads && SameBytes(db.uploads[id], upload)
    ensures RowsLinked(db.(uploads := db.uploads[id := upload]))
  {
  }

  /** A step that changes no byte count and no attempt keeps the balance. */
  lemma {:induction false} LifecycleChangeKeeps(db: Db, id: string, upload: Upload)
    requires Balanced(db) && id in db.uploads && SameBytes(db.uploads[id], upload)
    ensures Balanced(db.(uploads := db.uploads[id := upload]))
  {
    hide Sum, RowsLinked;
    var db' := db.(uploads := db.uploads[id := upload]);
    LifecycleRows(db, id, upload);
    forall other | other in db'.uploads ensures UploadBalanced(db', other) {
      assert UploadBalanced(db, other);
    }
    forall scope ensures QuotaBalanced(db', scope) {
      QuotaMoves(db, db', id, scope);
    }
  }

  // ---- create ----------------------------------------------------------------------------

  lemma {:induction false} CreateKeeps(db: Db, identity: Identity, maxStagedBytes: nat, expiresAt: int)
    requires Balanced(db) && Create(db, identity, maxStagedBytes, expiresAt).Ok?
    ensures Balanced(Create(db, identity, maxStagedBytes, expiresAt).value)
  {
    var id := identity.uploadId;
    var upload := NewUpload(identity, maxStagedBytes, expiresAt);
    var db' := Create(db, identity, maxStagedBytes, expiresAt).value;
    forall other | other in db'.uploads ensures UploadBalanced(db', other) {
      if other == id {
        SumZero(ReservedBy(db.attempts, id));
        SumZero(StagedBy(db.attempts, id));
      } else {
        assert UploadBalanced(db, other);
      }
    }
    forall scope ensures QuotaBalanced(db', scope) {
      assert QuotaBalanced(db, scope);
      ScopeSumsMove(db.uploads, id, upload, scope);
    }
  }

  // ---- begin_part ------------------------------------------------------------------------

  lemma {:induction false} AddReserved(attempts: map<string, Attempt>, key: string, attempt: Attempt, id: string)
    requires key !in attempts
    ensures Sum(ReservedBy(attempts[key := attempt], id)) ==
            Sum(ReservedBy(attempts, id)) + (if attempt.part.uploadId == id && attempt.state.PENDING? then
              attempt.reserved else 0)
  {
    hide Sum;
    var r := if attempt.part.uploadId == id && attempt.state.PENDING? then attempt.reserved else 0;
    assert ReservedBy(attempts[key := attempt], id) == ReservedBy(attempts, id)[key := r];
    SumUpdate(ReservedBy(attempts, id), key, r);
  }

  lemma {:induction false} AddStaged(attempts: map<string, Attempt>, key: string, attempt: Attempt, id: string)
    requires key !in attempts
    ensures Sum(StagedBy(attempts[key := attempt], id)) ==
            Sum(StagedBy(attempts, id)) + (if attempt.part.uploadId == id && !attempt.state.PENDING? then
              attempt.part.size else 0)
  {
    hide Sum;
    var s := if attempt.part.uploadId == id && !attempt.state.PENDING? then attempt.part.size else 0;
    assert StagedBy(attempts[key := attempt], id) == StagedBy(attempts, id)[key := s];
    SumUpdate(StagedBy(attempts, id), key, s);
  }

  lemma {:induction false} BeginQuota(db: Db, identity: Identity, partNumber: nat, bytes: nat, now: int, key: string,
      attempt: nat, scope: Scope)
    requires QuotaBalanced(db, scope) && BeginPart(db, identity, partNumber, bytes, now, key, attempt).Ok?
    ensures QuotaBalanced(BeginPart(db, identity, partNumber, bytes, now, key, attempt).value.0, scope)
  {
    QuotaMoves(db, BeginPart(db, identity, partNumber, bytes, now, key, attempt).value.0, identity.uploadId, scope);
  }

  lemma {:induction false} BeginUpload(db: Db, identity: Identity, partNumber: nat, bytes: nat, now: int, key: string,
      attempt: nat, id: string)
    requires BeginPart(db, identity, partNumber, bytes, now, key, attempt).Ok?
    requires id in db.uploads && UploadBalanced(db, id)
    ensures UploadBalanced(BeginPart(db, identity, partNumber, bytes, now, key, attempt).value.0, id)
  {
    var db' := BeginPart(db, identity, partNumber, bytes, now, key, attempt).value.0;
    AddReserved(db.attempts, key, db'.attempts[key], id);
    AddStaged(db.attempts, key, db'.attempts[key], id);
  }

  lemma {:induction false} BeginRows(db: Db, identity: Identity, partNumber: nat, bytes: nat, now: int, key: string,
      attempt: nat)
    requires RowsLinked(db) && BeginPart(db, identity, partNumber, bytes, now, key, attempt).Ok?
    ensures RowsLinked(BeginPart(db, identity, partNumber, bytes, now, key, attempt).value.0)
  {
    hide CurrentClash;
    PendingDoesNotClash(db.attempts, key,
      BeginPart(db, identity, partNumber, bytes, now, key, attempt).value.0.attempts[key]);
  }

  lemma {:induction false} PendingDoesNotClash(attempts: map<string, Attempt>, key: string, attempt: Attempt)
    requires !CurrentClash(attempts) && attempt.state.PENDING?
    ensures !CurrentClash(attempts[key := attempt])
  {
  }

  lemma {:induction false} BeginKeeps(db: Db, identity: Identity, partNumber: nat, bytes: nat, now: int, key: string,
      attempt: nat)
    requires Balanced(db) && BeginPart(db, identity, partNumber, bytes, now, key, attempt).Ok?
    ensures Balanced(BeginPart(db, identity, partNumber, bytes, now, key, attempt).value.0)
  {
    hide UploadBalanced, QuotaBalanced, RowsLinked;
    var db' := BeginPart(db, identity, partNumber, bytes, now, key, attempt).value.0;
    BeginRows(db, identity, partNumber, bytes, now, key, attempt);
    forall id | id in db'.uploads ensures UploadBalanced(db', id) {
      BeginUpload(db, identity, partNumber, bytes, now, key, attempt, id);
    }
    forall scope ensures QuotaBalanced(db', scope) {
      BeginQuota(db, identity, partNumber, bytes, now, key, attempt, scope);
    }
  }

  // ---- commit_part -----------------------------------------------------------------------

  lemma {:induction false} PublishReserved(attempts: map<string, Attempt>, uploadId: string, part: Part, id: string)
    requires part.artifactKey in attempts && attempts[part.artifactKey].state.PENDING?
    requires attempts[part.artifactKey].part.uploadId == uploadId
    ensures Sum(ReservedBy(Published(attempts, uploadId, part), id))
            + (if uploadId == id then attempts[part.artifactKey].reserved else 0)
            == Sum(ReservedBy(attempts, id))
  {
    hide Sum;
    var key := part.artifactKey;
    assert ReservedBy(Published(attempts, uploadId, part), id) == ReservedBy(attempts, id)[key := 0];
    SumUpdate(ReservedBy(attempts, id), key, 0);
  }

  lemma {:induction false} PublishStaged(attempts: map<string, Attempt>, uploadId: string, part: Part, id: string)
    requires part.artifactKey in attempts && attempts[part.artifactKey].state.PENDING?
    requires attempts[part.artifactKey].part.uploadId == uploadId
    ensures Sum(StagedBy(Published(attempts, uploadId, part), id)) ==
            Sum(StagedBy(attempts, id)) + (if uploadId == id then part.size else 0)
  {
    hide Sum;
    var key := part.artifactKey;
    assert StagedBy(Published(attempts, uploadId, part), id) ==
      StagedBy(attempts, id)[key := if uploadId == id then part.size else 0];
    SumUpdate(StagedBy(attempts, id), key, if uploadId == id then part.size else 0);
  }

  lemma {:induction false} CommitQuota(db: Db, identity: Identity, pending: PendingPart, part: Part, scope: Scope)
    requires QuotaBalanced(db, scope) && CommitPart(db, identity, pending, part).Ok?
    ensures QuotaBalanced(CommitPart(db, identity, pending, part).value, scope)
  {
    QuotaMoves(db, CommitPart(db, identity, pending, part).value, identity.uploadId, scope);
  }

  lemma {:induction false} CommitUpload(db: Db, identity: Identity, pending: PendingPart, part: Part, id: string)
    requires CommitPart(db, identity, pending, part).Ok?
    requires id in db.uploads && UploadBalanced(db, id)
    ensures UploadBalanced(CommitPart(db, identity, pending, part).value, id)
  {
    PublishReserved(db.attempts, identity.uploadId, part, id);
    PublishStaged(db.attempts, identity.uploadId, part, id);
  }

  /** Publication keeps every row's key, upload and part number. */
  lemma {:induction false} PublishedRow(attempts: map<string, Attempt>, uploadId: string, part: Part, k: string)
    requires part.artifactKey in attempts && k in attempts
    ensures var row := Published(attempts, uploadId, part)[k].part;
            && row.artifactKey == attempts[k].part.artifactKey && row.uploadId == attempts[k].part.uploadId
            && row.partNumber == attempts[k].part.partNumber
  {
  }

  lemma {:induction false} CommitRows(db: Db, identity: Identity, pending: PendingPart, part: Part)
    requires RowsLinked(db) && CommitPart(db, identity, pending, part).Ok?
    ensures RowsLinked(CommitPart(db, identity, pending, part).value)
  {
    hide Published, CurrentClash;
    var db' := CommitPart(db, identity, pending, part).value;
    assert db'.attempts == Published(db.attempts, identity.uploadId, part);
    assert db'.attempts.Keys == db.attempts.Keys by { PublishedKeys(db.attempts, identity.uploadId, part); }
    forall k | k in db'.attempts
      ensures && db'.attempts[k].part.artifactKey == k
              && 1 <= db'.attempts[k].part.partNumber <= MAX_PARTS
              && db'.attempts[k].part.uploadId in db'.uploads
              && GlobalScope in db'.quotas
              && TenantScope(db'.uploads[db'.attempts[k].part.uploadId].identity.tenant) in db'.quotas
    {
      PublishedRow(db.attempts, identity.uploadId, part, k);
    }
  }

  lemma {:induction false} PublishedKeys(attempts: map<string, Attempt>, uploadId: string, part: Part)
    requires part.artifactKey in attempts
    ensures Published(attempts, uploadId, part).Keys == attempts.Keys
  {
  }

  lemma {:induction false} CommitKeeps(db: Db, identity: Identity, pending: PendingPart, part: Part)
    requires Balanced(db) && CommitPart(db, identity, pending, part).Ok?
    ensures Balanced(CommitPart(db, identity, pending, part).value)
  {
    hide UploadBalanced, QuotaBalanced, RowsLinked;
    var db' := CommitPart(db, identity, pending, part).value;
    CommitRows(db, identity, pending, part);
    forall id | id in db'.uploads ensures UploadBalanced(db', id) {
      CommitUpload(db, identity, pending, part, id);
    }
    forall scope ensures QuotaBalanced(db', scope) {
      CommitQuota(db, identity, pending, part, scope);
    }
  }

  // ---- release_artifact ------------------------------------------------------------------

  lemma {:induction false} RemoveAttemptSums(attempts: map<string, Attempt>, key: string, id: string)
    requires key in attempts
    ensures var mine := attempts[key].part.uploadId == id;
            && Sum(ReservedBy(attempts, id)) ==
               Sum(ReservedBy(attempts - {key}, id))
               + (if mine && attempts[key].state.PENDING? then attempts[key].reserved else 0)
            && Sum(StagedBy(attempts, id)) == Sum(StagedBy(attempts - {key}, id))
               + (if mine && !attempts[key].state.PENDING? then attempts[key].part.size else 0)
  {
    hide Sum;
    assert ReservedBy(attempts - {key}, id) == ReservedBy(attempts, id) - {key};
    assert StagedBy(attempts - {key}, id) == StagedBy(attempts, id) - {key};
    SumRemove(ReservedBy(attempts, id), key);
    SumRemove(StagedBy(attempts, id), key);
  }

  /** An attempt's bytes are contained in its upload row, and the upload's in each row of its scope. */
  lemma {:induction false} UploadCoversAttempt(db: Db, key: string)
    requires key in db.attempts && db.attempts[key].part.uploadId in db.uploads
    requires UploadBalanced(db, db.attempts[key].part.uploadId)
    ensures var upload := db.uploads[db.attempts[key].part.uploadId];
            Releasable(Quota(0, upload.staged, upload.reserved), db.attempts[key])
  {
    SumAtLeast(ReservedBy(db.attempts, db.attempts[key].part.uploadId), key);
    SumAtLeast(StagedBy(db.attempts, db.attempts[key].part.uploadId), key);
  }

  lemma {:induction false} QuotaCoversUpload(db: Db, id: string, scope: Scope)
    requires id in db.uploads && InScope(db.uploads[id], scope) && QuotaBalanced(db, scope)
    ensures db.uploads[id].staged <= QuotaRow(db, scope).staged
            && db.uploads[id].reserved <= QuotaRow(db, scope).reserved
  {
    SumAtLeast(ReservedIn(db.uploads, scope), id);
    SumAtLeast(StagedIn(db.uploads, scope), id);
  }

  /** Releasing an artifact never fails: the underflow and missing-row errors are unreachable. */
  lemma {:induction false} ReleaseSucceeds(db: Db, key: string)
    requires Balanced(db)
    ensures ReleaseArtifact(db, key).Ok?
  {
    hide Sum, StagedIn, ReservedIn, CurrentClash;
    if key in db.attempts {
      var id := db.attempts[key].part.uploadId;
      UploadCoversAttempt(db, key);
      QuotaCoversUpload(db, id, GlobalScope);
      QuotaCoversUpload(db, id, TenantScope(db.uploads[id].identity.tenant));
    }
  }

  lemma {:induction false} ReleaseQuota(db: Db, key: string, scope: Scope)
    requires QuotaBalanced(db, scope) && ReleaseArtifact(db, key).Ok?
    ensures QuotaBalanced(ReleaseArtifact(db, key).value, scope)
  {
    if key in db.attempts {
      QuotaMoves(db, ReleaseArtifact(db, key).value, db.attempts[key].part.uploadId, scope);
    }
  }

  lemma {:induction false} ReleaseUpload(db: Db, key: string, id: string)
    requires ReleaseArtifact(db, key).Ok? && id in db.uploads && UploadBalanced(db, id)
    ensures id in ReleaseArtifact(db, key).value.uploads && UploadBalanced(ReleaseArtifact(db, key).value, id)
  {
    if key in db.attempts {
      RemoveAttemptSums(db.attempts, key, id);
    }
  }

  lemma {:induction false} ReleaseRows(db: Db, key: string)
    requires RowsLinked(db) && ReleaseArtifact(db, key).Ok?
    ensures RowsLinked(ReleaseArtifact(db, key).value)
  {
  }

  lemma {:induction false} ReleaseKeeps(db: Db, key: string)
    requires Balanced(db)
    ensures ReleaseArtifact(db, key).Ok? && Balanced(ReleaseArtifact(db, key).value)
  {
    hide UploadBalanced, QuotaBalanced, RowsLinked;
    ReleaseSucceeds(db, key);
    ReleaseRows(db, key);
    var db' := ReleaseArtifact(db, key).value;
    forall id | id in db'.uploads ensures UploadBalanced(db', id) {
      ReleaseUpload(db, key, id);
    }
    forall scope ensures QuotaBalanced(db', scope) {
      ReleaseQuota(db, key, scope);
    }
  }

  // ---- dropping a terminal upload ----------------------------------------------------------

  lemma {:induction false} NoAttemptsNoBytes(db: Db, id: string)
    requires id in db.uploads && UploadBalanced(db, id) && !HasAttempts(db.attempts, id)
    ensures db.uploads[id].staged == db.uploads[id].reserved == 0
  {
    SumZero(ReservedBy(db.attempts, id));
    SumZero(StagedBy(db.attempts, id));
  }

  lemma {:induction false} DropQuota(db: Db, id: string, scope: Scope)
    requires id in db.uploads && db.uploads[id].staged == db.uploads[id].reserved == 0 && QuotaBalanced(db, scope)
    ensures QuotaBalanced(DropUpload(db, id), scope)
  {
    hide Sum;
    var db' := DropUpload(db, id);
    assert StagedIn(db'.uploads, scope) == StagedIn(db.uploads, scope) - {id};
    assert ReservedIn(db'.uploads, scope) == ReservedIn(db.uploads, scope) - {id};
    SumRemove(StagedIn(db.uploads, scope), id);
    SumRemove(ReservedIn(db.uploads, scope), id);
  }

  lemma {:induction false} DropRows(db: Db, id: string)
    requires RowsLinked(db) && !HasAttempts(db.attempts, id)
    ensures RowsLinked(DropUpload(db, id))
  {
  }

  lemma {:induction false} DropOther(db: Db, id: string, other: string)
    requires other in db.uploads && other != id && UploadBalanced(db, other)
    ensures UploadBalanced(DropUpload(db, id), other)
  {
  }

  /** An upload without attempts carries no bytes, so dropping its row moves no quota. */
  lemma {:induction false} DropKeeps(db: Db, id: string)
    requires Balanced(db) && id in db.uploads && !HasAttempts(db.attempts, id)
    ensures db.uploads[id].staged == db.uploads[id].reserved == 0
    ensures Balanced(DropUpload(db, id))
  {
    hide UploadBalanced, QuotaBalanced, RowsLinked;
    var db' := DropUpload(db, id);
    NoAttemptsNoBytes(db, id);
    DropRows(db, id);
    forall other | other in db'.uploads ensures UploadBalanced(db', other) {
      DropOther(db, id, other);
    }
    forall scope ensures QuotaBalanced(db', scope) {
      DropQuota(db, id, scope);
    }
  }

  // ---- exact success conditions ----------------------------------------------------------

  /**
   Publishing a pending row breaks the unique index exactly when the row is of another part number than the
   one committed, and that number has a current row.
   */
  lemma {:induction false} PublishClashesExactly(attempts: map<string, Attempt>, uploadId: string, part: Part)
    requires part.artifactKey in attempts && attempts[part.artifactKey].part.uploadId == uploadId
    requires attempts[part.artifactKey].state.PENDING? && !CurrentClash(attempts)
    ensures var number := attempts[part.artifactKey].part.partNumber;
            CurrentClash(Published(attempts, uploadId, part)) <==>
              number != part.partNumber && HasCurrent(attempts, uploadId, number)
  {
    hide CurrentClash;
    var after := Published(attempts, uploadId, part);
    var key := part.artifactKey;
    var number := attempts[key].part.partNumber;
    if CurrentClash(after) {
      var j, k := ClashOf(after);
      if j != key && k != key { IsClash(attempts, j, k); }
      assert IsCurrent(attempts, if j == key then k else j, uploadId, number);
    }
    if k :| number != part.partNumber && IsCurrent(attempts, k, uploadId, number) {
      IsClash(after, key, k);
    }
  }

  lemma {:induction false} ClashOf(attempts: map<string, Attempt>) returns (j: string, k: string)
    requires CurrentClash(attempts)
    ensures j in attempts && k in attempts && j != k && attempts[j].state.CURRENT?
    ensures IsCurrent(attempts, k, attempts[j].part.uploadId, attempts[j].part.partNumber)
  {
    j, k :| j in attempts && k in attempts && j != k && attempts[j].state.CURRENT? &&
      IsCurrent(attempts, k, attempts[j].part.uploadId, attempts[j].part.partNumber);
  }

  lemma {:induction false} IsClash(attempts: map<string, Attempt>, j: string, k: string)
    requires j in attempts && k in attempts && j != k && attempts[j].state.CURRENT?
    requires IsCurrent(attempts, k, attempts[j].part.uploadId, attempts[j].part.partNumber)
    ensures CurrentClash(attempts)
  {
  }

  /** A pending row's reservation can be withdrawn from all three rows, and its size added to them. */
  lemma {:induction false} PendingIsCovered(db: Db, key: string)
    requires Balanced(db) && key in db.attempts && db.attempts[key].state.PENDING?
    ensures var upload := db.uploads[db.attempts[key].part.uploadId];
            var tenant := TenantScope(upload.identity.tenant);
            && Withdrawable(db, upload, db.attempts[key].reserved)
            && db.attempts[key].reserved <= I64_MAX
            && upload.staged + db.attempts[key].reserved <= I64_MAX
            && db.quotas[GlobalScope].staged + db.attempts[key].reserved <= I64_MAX
            && db.quotas[tenant].staged + db.attempts[key].reserved <= I64_MAX
  {
    hide Sum, StagedIn, ReservedIn, CurrentClash;
    var id := db.attempts[key].part.uploadId;
    var tenant := TenantScope(db.uploads[id].identity.tenant);
    UploadCoversAttempt(db, key);
    QuotaCoversUpload(db, id, GlobalScope);
    QuotaCoversUpload(db, id, tenant);
    assert QuotaBalanced(db, GlobalScope) && QuotaBalanced(db, tenant);
  }

  lemma {:induction false} CommitGoesThrough(db: Db, identity: Identity, pending: PendingPart, part: Part)
    requires Describes(pending, part) && Authorized(db, identity) && db.uploads[identity.uploadId].lifecycle.Open?
    requires pending.artifactKey in db.attempts && db.attempts[pending.artifactKey].state.PENDING?
    requires db.attempts[pending.artifactKey].part.uploadId == identity.uploadId
    requires db.attempts[pending.artifactKey].reserved == pending.reserved <= I64_MAX
    requires var upload := db.uploads[identity.uploadId];
             && Withdrawable(db, upload, pending.reserved)
             && upload.staged + pending.reserved <= I64_MAX
             && db.quotas[GlobalScope].staged + pending.reserved <= I64_MAX
             && db.quotas[TenantScope(upload.identity.tenant)].staged + pending.reserved <= I64_MAX
    requires !CurrentClash(Published(db.attempts, identity.uploadId, part))
    ensures CommitPart(db, identity, pending, part).Ok?
  {
  }

  lemma {:induction false} BalancedIndex(db: Db)
    requires Balanced(db)
    ensures !CurrentClash(db.attempts)
  {
  }

  /** The row a commit publishes, as the caller's pending part describes it. */
  predicate PendingRow(db: Db, identity: Identity, pending: PendingPart) {
    && pending.artifactKey in db.attempts
    && db.attempts[pending.artifactKey].state.PENDING?
    && db.attempts[pending.artifactKey].part.uploadId == identity.uploadId
    && db.attempts[pending.artifactKey].reserved == pending.reserved
  }

  /**
   Commit succeeds exactly when the part matches the pending one, the upload is the caller's and open, the
   row is pending with that reservation, and a row of another part number does not meet a current one. The
   other branches (missing reservation, overflow) never fire.
   */
  lemma {:induction false} CommitSucceedsExactly(db: Db, identity: Identity, pending: PendingPart, part: Part)
    requires Balanced(db)
    ensures CommitPart(db, identity, pending, part).Ok? <==>
            && Describes(pending, part)
            && Authorized(db, identity) && db.uploads[identity.uploadId].lifecycle.Open?
            && PendingRow(db, identity, pending)
            && var number := db.attempts[pending.artifactKey].part.partNumber;
               (number == part.partNumber || !HasCurrent(db.attempts, identity.uploadId, number))
  {
    hide Balanced, CurrentClash, HasCurrent, Published, Withdrawable;
    BalancedIndex(db);
    var key := pending.artifactKey;
    if Describes(pending, part) && Authorized(db, identity) && db.uploads[identity.uploadId].lifecycle.Open?
       && PendingRow(db, identity, pending)
    {
      PendingIsCovered(db, key);
      PublishClashesExactly(db.attempts, identity.uploadId, part);
      if !CurrentClash(Published(db.attempts, identity.uploadId, part)) { CommitGoesThrough(db, identity, pending,
        part); }
    }
  }

  /**
   A reservation is granted exactly when the limits can be stored, the upload, tenant and global budgets all
   still hold it, the attempt number fits its column and the generated key is new.
   */
  lemma {:induction false} BeginSucceedsExactly(db: Db, identity: Identity, partNumber: nat, bytes: nat, now: int,
      key: string, attempt: nat)
    requires Balanced(db)
    ensures BeginPart(db, identity, partNumber, bytes, now, key, attempt).Ok? <==>
            && 1 <= partNumber <= MAX_PARTS && bytes > 0 && Authorized(db, identity)
            && db.limits.globalBytes <= I64_MAX && db.limits.tenantBytes <= I64_MAX
            && attempt <= I32_MAX && key !in db.attempts
            && var upload := db.uploads[identity.uploadId];
               && upload.lifecycle.Open? && now < upload.expiresAt
               && upload.staged + upload.reserved + bytes <= upload.maxStagedBytes
               && upload.staged + upload.reserved + bytes <= U64_MAX
               && Sum(StagedIn(db.uploads, GlobalScope)) + Sum(ReservedIn(db.uploads, GlobalScope)) + bytes <=
                  db.limits.globalBytes
               && Sum(StagedIn(db.uploads, TenantScope(identity.tenant)))
                  + Sum(ReservedIn(db.uploads, TenantScope(identity.tenant))) + bytes
                  <= db.limits.tenantBytes
  {
    hide Sum, StagedIn, ReservedIn, CurrentClash;
    assert QuotaBalanced(db, GlobalScope) && QuotaBalanced(db, TenantScope(identity.tenant));
    if Authorized(db, identity) {
      QuotaCoversUpload(db, identity.uploadId, GlobalScope);
    }
  }
}
