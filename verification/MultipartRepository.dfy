/**
 The staging repository as the object that updates its tables in place. Every method is proved to
 have the effect of the corresponding step in `Multipart`, which the run theorems are about.
 */
module MultipartRepository {
  import opened Common
  import opened Multipart
  import opened MultipartAccounting

  /** The parts of a listing by number; the first entry of a number wins, as `find` does. */
  function TableOf(listing: seq<Part>): map<nat, Part> {
    if listing == [] then map[] else TableOf(listing[1..])[listing[0].partNumber := listing[0]]
  }

  method FindPart(listing: seq<Part>, partNumber: nat) returns (found: Option<Part>)
    ensures found == if partNumber in TableOf(listing) then Some(TableOf(listing)[partNumber]) else None
  {
    var i := 0;
    while i < |listing|
      invariant 0 <= i <= |listing|
      invariant partNumber in TableOf(listing) <==> partNumber in TableOf(listing[i..])
      invariant partNumber in TableOf(listing) ==> TableOf(listing)[partNumber] == TableOf(listing[i..])[partNumber]
    {
      assert listing[i..][1..] == listing[i + 1..];
      if listing[i].partNumber == partNumber {
        return Some(listing[i]);
      }
      i := i + 1;
    }
    return None;
  }

  /** A selection result with parts already selected put in front of it. */
  function After(selected: seq<Part>, r: Result<seq<Part>, Error>): Result<seq<Part>, Error> {
    match r
    case Ok(rest) => Ok(selected + rest)
    case Err(e) => Err(e)
  }

  lemma {:induction false} AfterOne(selected: seq<Part>, part: Part, r: Result<seq<Part>, Error>)
    ensures After(selected, After([part], r)) == After(selected + [part], r)
  {
    if r.Ok? { assert selected + ([part] + r.value) == selected + [part] + r.value; }
  }

  method ValidateSelectedParts(listing: seq<Part>, requested: seq<CompletePart>) returns (r: Result<seq<Part>, Error>)
    ensures r == SelectParts(TableOf(listing), requested)
  {
    if requested == [] {
      return Err(InvalidPart);
    }
    var previous := 0;
    var selected: seq<Part> := [];
    var i := 0;
    assert requested[0..] == requested;
    assert SelectFrom(TableOf(listing), requested, 0).Ok? ==>
      [] + SelectFrom(TableOf(listing), requested, 0).value == SelectFrom(TableOf(listing), requested, 0).value;
    while i < |requested|
      invariant 0 <= i <= |requested|
      invariant SelectFrom(TableOf(listing), requested, 0) ==
                After(selected, SelectFrom(TableOf(listing), requested[i..], previous))
    {
      var request := requested[i];
      assert requested[i..][0] == request && requested[i..][1..] == requested[i + 1..];
      if request.partNumber == 0 || request.partNumber <= previous {
        return Err(InvalidPart);
      }
      var part := FindPart(listing, request.partNumber);
      if part.None? {
        return Err(InvalidPart);
      }
      if part.value.etag != request.etag || (request.checksum.Some? && request.checksum.value != part.value.checksum) {
        return Err(InvalidPart);
      }
      AfterOne(selected, part.value, SelectFrom(TableOf(listing), requested[i + 1..], request.partNumber));
      previous := request.partNumber;
      selected := selected + [part.value];
      i := i + 1;
    }
    assert requested[i..] == [] && selected + [] == selected;
    return Ok(selected);
  }

  /** The parts of the current rows under a part number. */
  function PartsAt(attempts: map<string, Attempt>, uploadId: string, partNumber: nat): set<Part> {
    set k | k in attempts && IsCurrent(attempts, k, uploadId, partNumber) :: attempts[k].part
  }

  /** The parts of the current rows of some uploads. */
  function PartsOf(attempts: map<string, Attempt>, ids: set<string>): set<Part> {
    set k | k in attempts && attempts[k].state.CURRENT? && attempts[k].part.uploadId in ids :: attempts[k].part
  }

  /** The row of a part is still there, with its bytes, as a retired one. */
  predicate RetiredRow(attempts: map<string, Attempt>, part: Part) {
    part.artifactKey in attempts && attempts[part.artifactKey].state.RETIRED? && attempts[part.artifactKey].part == part
  }

  class Repository {
    const limits: Limits
    var uploads: map<string, Upload>
    var attempts: map<string, Attempt>
    var quotas: map<Scope, Quota>

    ghost function View(): Db
      reads this
    {
      Db(limits, uploads, attempts, quotas)
    }

    constructor (limits: Limits)
      ensures View() == Db(limits, map[], map[], map[])
    {
      this.limits := limits;
      uploads, attempts, quotas := map[], map[], map[];
    }

    method CreateUpload(identity: Identity, maxStagedBytes: nat, expiresAt: int) returns (r: Result<(), Error>)
      modifies this
      ensures r.Ok? <==> Create(old(View()), identity, maxStagedBytes, expiresAt).Ok?
      ensures r.Err? ==> r.error == Create(old(View()), identity, maxStagedBytes, expiresAt).error
      ensures View() == if r.Ok? then Create(old(View()), identity, maxStagedBytes, expiresAt).value else old(View())
      ensures Balanced(old(View())) ==> Balanced(View())
    {
      hide Balanced;
      ghost var before := View();
      if Balanced(before) && Create(before, identity, maxStagedBytes, expiresAt).Ok? {
        CreateKeeps(before, identity, maxStagedBytes, expiresAt);
      }
      if |OpenUploads(uploads, identity.tenant)| >= MAX_ACTIVE_UPLOADS {
        return Err(QuotaExceeded);
      }
      if identity.uploadId in uploads {
        return Err(Persistence);
      }
      uploads := uploads[identity.uploadId := NewUpload(identity, maxStagedBytes, expiresAt)];
      return Ok(());
    }

    /** One more than the largest attempt number of the part. */
    method NextAttempt(uploadId: string, partNumber: nat) returns (attempt: nat)
      ensures IsNextAttempt(attempts, uploadId, partNumber, attempt)
    {
      attempt := 1;
      var rest := attempts.Keys;
      while rest != {}
        invariant rest <= attempts.Keys && attempt >= 1
        invariant forall k :: k in attempts && k !in rest && OfPart(attempts[k], uploadId, partNumber) ==>
                  attempts[k].part.attempt < attempt
        invariant attempt == 1 || exists k ::
                  k in attempts && OfPart(attempts[k], uploadId, partNumber) && attempts[k].part.attempt == attempt - 1
        decreases rest
      {
        var k :| k in rest;
        if OfPart(attempts[k], uploadId, partNumber) && attempts[k].part.attempt >= attempt {
          attempt := attempts[k].part.attempt + 1;
        }
        rest := rest - {k};
      }
    }

    /** The error `BeginAttempt` answers with, if any. */
    method CheckBegin(identity: Identity, partNumber: nat, bytes: nat, now: int, key: string, next: nat)
        returns (e: Option<Error>)
      ensures match BeginPart(View(), identity, partNumber, bytes, now, key, next)
              case Ok(_) => e.None?
              case Err(error) => e == Some(error)
    {
      hide Fits;
      if partNumber == 0 || partNumber > MAX_PARTS || bytes == 0 {
        return Some(InvalidPart);
      }
      if bytes > I64_MAX {
        return Some(QuotaExceeded);
      }
      if identity.uploadId !in uploads || uploads[identity.uploadId].identity != identity {
        return Some(NotFound);
      }
      var upload := uploads[identity.uploadId];
      if upload.lifecycle != Open || upload.expiresAt <= now {
        return Some(NotOpen);
      }
      var wanted := upload.staged + upload.reserved + bytes;
      if wanted > U64_MAX || wanted > upload.maxStagedBytes {
        return Some(QuotaExceeded);
      }
      if limits.globalBytes > I64_MAX || limits.tenantBytes > I64_MAX {
        return Some(QuotaExceeded);
      }
      var globalRow, tenantRow := RowOf(GlobalScope), RowOf(TenantScope(identity.tenant));
      if !Fits(globalRow, bytes) || !Fits(tenantRow, bytes) {
        return Some(QuotaExceeded);
      }
      if next > I32_MAX || key in attempts {
        return Some(Persistence);
      }
      if upload.reserved + bytes > I64_MAX || globalRow.reserved + bytes > I64_MAX
        || tenantRow.reserved + bytes > I64_MAX {
        return Some(QuotaExceeded);
      }
      e := None;
    }

    /** The quota row of a scope, inserted when it is missing. */
    function RowOf(scope: Scope): Quota
      reads this
    {
      QuotaRow(Db(limits, uploads, attempts, quotas), scope)
    }

    /** `key` stands for the generated artifact key. */
    method BeginAttempt(identity: Identity, partNumber: nat, bytes: nat, now: int, key: string)
      returns (r: Result<PendingPart, Error>, ghost attempt: nat)
      modifies this
      ensures IsNextAttempt(old(attempts), identity.uploadId, partNumber, attempt)
      ensures var step := BeginPart(old(View()), identity, partNumber, bytes, now, key, attempt);
              match r
              case Ok(pending) => step == Ok((View(), pending))
              case Err(e) => step == Err(e) && View() == old(View())
      ensures Balanced(old(View())) ==> Balanced(View())
    {
      hide IsNextAttempt, Balanced, Fits;
      var next := NextAttempt(identity.uploadId, partNumber);
      attempt := next;
      BeginIsBalanced(View(), identity, partNumber, bytes, now, key, attempt);
      var e := CheckBegin(identity, partNumber, bytes, now, key, next);
      if e.Some? {
        return Err(e.value), attempt;
      }
      var tenant := TenantScope(identity.tenant);
      var upload, globalRow, tenantRow := uploads[identity.uploadId], RowOf(GlobalScope), RowOf(tenant);
      attempts := attempts[key := Attempt(Part(identity.uploadId, partNumber, next, key, "", "", 0), bytes, PENDING)];
      uploads := uploads[identity.uploadId := upload.(reserved := upload.reserved + bytes)];
      quotas := quotas[GlobalScope := globalRow.(reserved := globalRow.reserved + bytes)];
      quotas := quotas[tenant := tenantRow.(reserved := tenantRow.reserved + bytes)];
      return Ok(PendingPart(identity.uploadId, partNumber, next, key, bytes)), attempt;
    }

    /**
     Retire the old current rows of the part, then publish the pending row, all or nothing. The parts handed
     back are the retired ones; their rows and bytes stay until their deletion is confirmed.
     */
    method CommitAttempt(identity: Identity, pending: PendingPart, part: Part) returns (r: Result<set<Part>, Error>)
      modifies this
      ensures match r
              case Ok(_) => CommitPart(old(View()), identity, pending, part) == Ok(View())
              case Err(e) => CommitPart(old(View()), identity, pending, part) == Err(e) && View() == old(View())
      ensures r.Ok? ==> r.value == PartsAt(old(attempts), identity.uploadId, part.partNumber)
      ensures r.Ok? && RowsLinked(old(View())) ==> |r.value| <= 1 && forall p :: p in r.value ==>
              RetiredRow(attempts, p)
      ensures Balanced(old(View())) ==> Balanced(View())
    {
      hide Balanced, RowsLinked, PartsAt, Published, CurrentClash, RetiredRow;
      ghost var before := View();
      CommitIsBalanced(before, identity, pending, part);
      if !Describes(pending, part) {
        return Err(InvalidPart);
      }
      if identity.uploadId !in uploads || uploads[identity.uploadId].identity != identity {
        return Err(NotFound);
      }
      var upload := uploads[identity.uploadId];
      if upload.lifecycle != Open {
        return Err(NotOpen);
      }
      var key := pending.artifactKey;
      if key !in attempts || attempts[key].state != PENDING || attempts[key].part.uploadId != identity.uploadId {
        return Err(NotFound);
      }
      if pending.reserved > I64_MAX {
        return Err(QuotaExceeded);
      }
      if attempts[key].reserved != pending.reserved {
        return Err(NotFound);
      }
      var previous := PartsAt(attempts, identity.uploadId, part.partNumber);
      if !Withdrawable(Db(limits, uploads, attempts, quotas), upload, pending.reserved) {
        return Err(Persistence);
      }
      var published := Republish(identity.uploadId, part);
      if CurrentClash(published) {
        return Err(Persistence);
      }
      var tenant := TenantScope(identity.tenant);
      var globalRow, tenantRow := quotas[GlobalScope], quotas[tenant];
      if upload.staged + part.size > I64_MAX || globalRow.staged + part.size > I64_MAX
        || tenantRow.staged + part.size > I64_MAX {
        return Err(QuotaExceeded);
      }
      attempts := published;
      uploads := uploads[identity.uploadId :=
        upload.(reserved := upload.reserved - pending.reserved, staged := upload.staged + part.size)];
      quotas := quotas[GlobalScope := globalRow.(staged := globalRow.staged + part.size, reserved :=
        globalRow.reserved - pending.reserved)];
      quotas := quotas[tenant := tenantRow.(staged := tenantRow.staged + part.size, reserved :=
        tenantRow.reserved - pending.reserved)];
      if RowsLinked(before) { PreviousAreRetired(before, identity.uploadId, part); }
      return Ok(previous);
    }

    /** The two updates of the attempt table: current rows of the part become retired, then the row is published. */
    method Republish(uploadId: string, part: Part) returns (published: map<string, Attempt>)
      requires part.artifactKey in attempts && attempts[part.artifactKey].state.PENDING?
      ensures published == Published(attempts, uploadId, part)
    {
      var retired := map k | k in attempts ::
        if IsCurrent(attempts, k, uploadId, part.partNumber) then attempts[k].(state := RETIRED) else attempts[k];
      var row := attempts[part.artifactKey].part.(etag := part.etag, checksum := part.checksum, size := part.size);
      published := retired[part.artifactKey := Attempt(row, 0, CURRENT)];
    }

    /** `discard_pending` and `confirm_artifact_deleted`; on balanced tables it cannot fail. */
    method ConfirmArtifactDeleted(key: string) returns (r: Result<(), Error>)
      modifies this
      ensures match r
              case Ok(_) => ReleaseArtifact(old(View()), key) == Ok(View())
              case Err(e) => ReleaseArtifact(old(View()), key) == Err(e) && View() == old(View())
      ensures Balanced(old(View())) ==> r.Ok? && Balanced(View()) && key !in attempts
    {
      ghost var before := View();
      if key !in attempts {
        return Ok(());
      }
      var attempt := attempts[key];
      var id := attempt.part.uploadId;
      if id in uploads {
        var upload := uploads[id];
        var tenant := TenantScope(upload.identity.tenant);
        if GlobalScope in quotas && tenant in quotas {
          var globalRow, tenantRow := quotas[GlobalScope], quotas[tenant];
          var mine := Quota(0, upload.staged, upload.reserved);
          if Releasable(globalRow, attempt) && Releasable(tenantRow, attempt) && Releasable(mine, attempt) {
            var left := Release(mine, attempt);
            uploads := uploads[id := upload.(staged := left.staged, reserved := left.reserved)];
            quotas := quotas[GlobalScope := Release(globalRow, attempt)];
            quotas := quotas[tenant := Release(tenantRow, attempt)];
            attempts := attempts - {key};
            r := Ok(());
            ReleaseIsBalanced(before, key);
            return;
          }
        }
      }
      ReleaseIsBalanced(before, key);
      r := Err(Persistence);
    }

    /** The current parts of an upload in ascending order of part number. */
    method CurrentListing(uploadId: string) returns (listing: seq<Part>)
      ensures forall i, j :: 0 <= i < j < |listing| ==> listing[i].partNumber < listing[j].partNumber
      ensures RowsLinked(View()) ==> TableOf(listing) == CurrentParts(attempts, uploadId)
    {
      hide RowsLinked, CurrentParts, HasCurrent;
      listing := [];
      var n := MAX_PARTS;
      ghost var current := CurrentParts(attempts, uploadId);
      CurrentNumbers(attempts, uploadId);
      while n > 0
        invariant 0 <= n <= MAX_PARTS
        invariant forall i :: 0 <= i < |listing| ==> n < listing[i].partNumber
        invariant forall i, j :: 0 <= i < j < |listing| ==> listing[i].partNumber < listing[j].partNumber
        invariant RowsLinked(View()) ==> TableOf(listing) == map m | m in current && n < m :: current[m]
      {
        if k :| k in attempts && IsCurrent(attempts, k, uploadId, n) {
          if RowsLinked(View()) {
            CurrentIsUnique(View(), uploadId, n, k);
            assert current[n] == attempts[k].part;
          }
          var part := attempts[k].part;
          assert ([part] + listing)[1..] == listing;
          listing := [part] + listing;
        } else {
          NoCurrent(attempts, uploadId, n);
        }
        n := n - 1;
      }
    }

    /** A granted lease carries the selected parts and, for cleaning up, all current ones. */
    method AcquireLease(identity: Identity, fingerprint: string, request: seq<CompletePart>, owner: string,
        leaseExpires: int, now: int)
      returns (r: Result<Acquire, Error>, cleanup: seq<Part>)
      requires RowsLinked(View())
      modifies this
      ensures var step := AcquireCompletion(old(View()), identity, fingerprint, request, owner, leaseExpires, now);
              match r
              case Ok(answer) => step == Ok((View(), answer))
              case Err(e) => step == Err(e) && View() == old(View())
      ensures if r.Ok? && r.value.Acquired? then TableOf(cleanup) == CurrentParts(attempts, identity.uploadId)
              else cleanup == []
      ensures forall i, j :: 0 <= i < j < |cleanup| ==> cleanup[i].partNumber < cleanup[j].partNumber
      ensures Balanced(old(View())) ==> Balanced(View())
    {
      hide Balanced, TableOf, CurrentParts, SelectFrom;
      ghost var before := View();
      if identity.uploadId !in uploads || uploads[identity.uploadId].identity != identity {
        return Err(NotFound), [];
      }
      var upload := uploads[identity.uploadId];
      if upload.lifecycle == Completed {
        if upload.result.None? {
          return Err(Persistence), [];
        }
        return if upload.fingerprint == Some(fingerprint) then Ok(Replayed(upload.result.value))
          else Err(CompletionConflict), [];
      }
      if upload.lifecycle == Aborted || upload.lifecycle == Expired {
        return Err(NotOpen), [];
      }
      if upload.lifecycle == Completing && upload.fingerprint != Some(fingerprint) {
        return Err(CompletionConflict), [];
      }
      if upload.lifecycle == Completing && upload.leaseExpires.Some? && upload.leaseExpires.value > now {
        return Ok(Busy), [];
      }
      if upload.lifecycle == Open && upload.expiresAt <= now {
        return Err(NotOpen), [];
      }
      var listing := CurrentListing(identity.uploadId);
      var selection := ValidateSelectedParts(listing, request);
      if selection.Err? {
        return Err(selection.error), [];
      }
      if upload.token + 1 > I64_MAX {
        return Err(Persistence), [];
      }
      uploads := uploads[identity.uploadId := upload.(
        lifecycle := Completing, fingerprint := Some(fingerprint), leaseOwner := Some(owner),
        leaseExpires := Some(leaseExpires), token := upload.token + 1)];
      LifecycleIsBalanced(before, identity.uploadId, uploads[identity.uploadId]);
      return Ok(Acquired(upload.token + 1, selection.value)), listing;
    }

    method RenewLease(identity: Identity, token: nat, leaseExpires: int) returns (r: Result<(), Error>)
      modifies this
      ensures match r
              case Ok(_) => RenewCompletion(old(View()), identity, token, leaseExpires) == Ok(View())
              case Err(e) =>
                RenewCompletion(old(View()), identity, token, leaseExpires) == Err(e) && View() == old(View())
      ensures Balanced(old(View())) ==> Balanced(View())
    {
      hide Balanced;
      ghost var before := View();
      if identity.uploadId !in uploads {
        return Err(Fenced);
      }
      var upload := uploads[identity.uploadId];
      if upload.identity.tenant != identity.tenant || upload.lifecycle != Completing || upload.token != token {
        return Err(Fenced);
      }
      uploads := uploads[identity.uploadId := upload.(leaseExpires := Some(leaseExpires))];
      LifecycleIsBalanced(before, identity.uploadId, uploads[identity.uploadId]);
      return Ok(());
    }

    /** The two statements of `complete_completion`, here with nothing in between. */
    method CompleteUpload(identity: Identity, token: nat, result: CompletionResult, now: int)
        returns (r: Result<(), Error>)
      modifies this
      ensures r.Ok? <==> CheckLease(old(View()), identity, token, now).Ok?
      ensures r.Ok? ==> CompareAndComplete(old(View()), identity.uploadId, token, result, now) == Ok(View())
      ensures r.Err? ==> r.error == CheckLease(old(View()), identity, token, now).error && View() == old(View())
      ensures Balanced(old(View())) ==> Balanced(View())
    {
      hide Balanced;
      ghost var before := View();
      if identity.uploadId !in uploads || uploads[identity.uploadId].identity != identity {
        return Err(NotFound);
      }
      var upload := uploads[identity.uploadId];
      if upload.lifecycle != Completing || upload.token != token || upload.leaseExpires.None?
        || upload.leaseExpires.value <= now {
        return Err(Fenced);
      }
      uploads := uploads[identity.uploadId := upload.(
        lifecycle := Completed, result := Some(result), leaseOwner := None, leaseExpires := None,
        tombstone := Some(now + DEFAULT_EXPIRY_MS))];
      LifecycleIsBalanced(before, identity.uploadId, uploads[identity.uploadId]);
      return Ok(());
    }

    /** Abort an open upload and list its current parts; aborting again changes and lists nothing. */
    method Abort(identity: Identity, now: int) returns (r: Result<seq<Part>, Error>)
      modifies this
      ensures match r
              case Ok(_) => AbortUpload(old(View()), identity, now) == Ok(View())
              case Err(e) => AbortUpload(old(View()), identity, now) == Err(e) && View() == old(View())
      ensures r.Ok? ==>
                if old(uploads)[identity.uploadId].lifecycle == Aborted then r.value == []
                else RowsLinked(old(View())) ==> TableOf(r.value) == CurrentParts(attempts, identity.uploadId)
      ensures r.Ok? ==> forall i, j :: 0 <= i < j < |r.value| ==> r.value[i].partNumber < r.value[j].partNumber
      ensures Balanced(old(View())) ==> Balanced(View())
    {
      hide Balanced, RowsLinked, CurrentParts, TableOf;
      ghost var before := View();
      if identity.uploadId !in uploads || uploads[identity.uploadId].identity != identity {
        return Err(NotFound);
      }
      var upload := uploads[identity.uploadId];
      if upload.lifecycle == Aborted {
        return Ok([]);
      }
      if upload.lifecycle != Open {
        return Err(NotOpen);
      }
      uploads := uploads[identity.uploadId :=
        upload.(lifecycle := Aborted, tombstone := Some(now + DEFAULT_EXPIRY_MS))];
      LifecycleIsBalanced(before, identity.uploadId, uploads[identity.uploadId]);
      if RowsLinked(before) { LifecycleRows(before, identity.uploadId, uploads[identity.uploadId]); }
      var listing := CurrentListing(identity.uploadId);
      return Ok(listing);
    }

    method Expire(id: string, now: int)
      requires Reapable(View(), id, now)
      modifies `uploads
      ensures View() == ReapUpload(old(View()), id, now)
      ensures Balanced(old(View())) ==> Balanced(View())
    {
      hide Balanced;
      ghost var before := View();
      uploads := uploads[id := uploads[id].(lifecycle := Expired, tombstone := Some(now + DEFAULT_EXPIRY_MS))];
      LifecycleIsBalanced(before, id, uploads[id]);
    }

    /** Expire up to `limit` open uploads whose time has come, and hand back their current parts. */
    method ReapExpired(now: int, limit: nat) returns (reaped: set<string>, parts: set<Part>)
      modifies this
      ensures |reaped| <= limit
      ensures forall id :: id in reaped ==> Reapable(old(View()), id, now)
      ensures |reaped| < limit ==> forall id :: id in uploads ==> !Reapable(View(), id, now)
      ensures View() == old(View()).(uploads := map id | id in old(uploads) ::
                if id in reaped then ReapUpload(old(View()), id, now).uploads[id] else old(uploads)[id])
      ensures parts == PartsOf(attempts, reaped)
      ensures Balanced(old(View())) ==> Balanced(View())
    {
      hide Balanced, PartsOf;
      reaped, parts := {}, {};
      NoParts(attempts);
      var rest := uploads.Keys;
      while rest != {} && |reaped| < limit
        invariant rest <= old(uploads).Keys && rest !! reaped && |reaped| <= limit
        invariant attempts == old(attempts) && quotas == old(quotas)
        invariant forall id :: id in reaped ==> Reapable(old(View()), id, now)
        invariant forall id :: id in old(uploads) && id !in rest && id !in reaped ==> !Reapable(old(View()), id, now)
        invariant uploads == map id | id in old(uploads) ::
                    if id in reaped then ReapUpload(old(View()), id, now).uploads[id] else old(uploads)[id]
        invariant parts == PartsOf(attempts, reaped)
        invariant Balanced(old(View())) ==> Balanced(View())
        decreases rest
      {
        var id :| id in rest;
        rest := rest - {id};
        if uploads[id].lifecycle == Open && uploads[id].expiresAt <= now {
          Expire(id, now);
          PartsOfMore(attempts, reaped, id);
          parts := parts + PartsOf(attempts, {id});
          reaped := reaped + {id};
        }
      }
    }

    /** Up to `limit` settled uploads, with or without attempts. */
    method PickSettled(now: int, limit: nat) returns (picked: set<string>)
      ensures |picked| <= limit && forall id :: id in picked ==> Settled(View(), id, now)
      ensures |picked| < limit ==> forall id :: Settled(View(), id, now) ==> id in picked
    {
      picked := {};
      var rest := uploads.Keys;
      while rest != {} && |picked| < limit
        invariant rest <= uploads.Keys && rest !! picked && |picked| <= limit
        invariant forall id :: id in picked ==> Settled(View(), id, now)
        invariant forall id :: Settled(View(), id, now) ==> id in picked || id in rest
        decreases rest
      {
        var id :| id in rest;
        rest := rest - {id};
        if Settled(Db(limits, uploads, attempts, quotas), id, now) { picked := picked + {id}; }
      }
    }

    /**
     Drop those of up to `limit` settled uploads that have no attempts left. Uploads that still have some use up
     the limit too, so that nothing may be dropped although something could be.
     */
    method RetireTerminalUploads(now: int, limit: nat) returns (retired: set<string>, picked: set<string>)
      modifies this
      ensures |picked| <= limit && forall id :: id in picked ==> Settled(old(View()), id, now)
      ensures forall id :: id in retired <==> id in picked && Retirable(old(View()), id, now)
      ensures |picked| < limit ==> forall id :: !Retirable(View(), id, now)
      ensures View() == old(View()).(uploads := old(uploads) - retired)
      ensures Balanced(old(View())) ==> Balanced(View())
      ensures Balanced(old(View())) ==>
                forall id :: id in retired ==>
                  id in old(uploads) && old(uploads)[id].staged == old(uploads)[id].reserved == 0
    {
      hide Balanced;
      picked := PickSettled(now, limit);
      retired := {};
      var rest := picked;
      while rest != {}
        invariant rest <= picked && rest !! retired
        invariant Balanced(old(View())) ==> Balanced(View())
        invariant uploads == old(uploads) - retired && attempts == old(attempts) && quotas == old(quotas)
        invariant forall id :: id in retired <==> id in picked && id !in rest && Retirable(old(View()), id, now)
        invariant Balanced(old(View())) ==>
                    forall id :: id in retired ==>
                      id in old(uploads) && old(uploads)[id].staged == old(uploads)[id].reserved == 0
        decreases rest
      {
        var id :| id in rest;
        rest := rest - {id};
        if !HasAttempts(attempts, id) {
          if Balanced(View()) { DropKeeps(View(), id); }
          uploads := uploads - {id};
          retired := retired + {id};
        }
      }
    }
  }

  lemma {:induction false} BeginIsBalanced(db: Db, identity: Identity, partNumber: nat, bytes: nat, now: int,
      key: string, attempt: nat)
    ensures Balanced(db) && BeginPart(db, identity, partNumber, bytes, now, key, attempt).Ok? ==>
              Balanced(BeginPart(db, identity, partNumber, bytes, now, key, attempt).value.0)
  {
    hide Balanced, BeginPart;
    if Balanced(db) && BeginPart(db, identity, partNumber, bytes, now, key, attempt).Ok? {
      BeginKeeps(db, identity, partNumber, bytes, now, key, attempt);
    }
  }

  lemma {:induction false} CommitIsBalanced(db: Db, identity: Identity, pending: PendingPart, part: Part)
    ensures Balanced(db) && CommitPart(db, identity, pending, part).Ok? ==>
            Balanced(CommitPart(db, identity, pending, part).value)
  {
    hide Balanced, CommitPart;
    if Balanced(db) && CommitPart(db, identity, pending, part).Ok? { CommitKeeps(db, identity, pending, part); }
  }

  lemma {:induction false} LifecycleIsBalanced(db: Db, id: string, upload: Upload)
    requires id in db.uploads && SameBytes(db.uploads[id], upload)
    ensures Balanced(db) ==> Balanced(db.(uploads := db.uploads[id := upload]))
  {
    hide Balanced;
    if Balanced(db) { LifecycleChangeKeeps(db, id, upload); }
  }

  /** At most one row is retired by a commit, and it stays with its bytes. */
  lemma {:induction false} PreviousAreRetired(db: Db, uploadId: string, part: Part)
    requires RowsLinked(db) && part.artifactKey in db.attempts && db.attempts[part.artifactKey].state.PENDING?
    ensures |PartsAt(db.attempts, uploadId, part.partNumber)| <= 1
    ensures forall p :: p in PartsAt(db.attempts, uploadId, part.partNumber) ==>
            RetiredRow(Published(db.attempts, uploadId, part), p)
  {
    var parts := PartsAt(db.attempts, uploadId, part.partNumber);
    if k :| k in db.attempts && IsCurrent(db.attempts, k, uploadId, part.partNumber) {
      forall j | IsCurrent(db.attempts, j, uploadId, part.partNumber) ensures j == k {
        assert j != k ==> CurrentClash(db.attempts);
      }
      assert parts == {db.attempts[k].part};
    } else {
      assert parts == {};
    }
  }

  lemma {:induction false} NoParts(attempts: map<string, Attempt>)
    ensures PartsOf(attempts, {}) == {}
  {
  }

  lemma {:induction false} PartsOfMore(attempts: map<string, Attempt>, ids: set<string>, id: string)
    ensures PartsOf(attempts, ids + {id}) == PartsOf(attempts, ids) + PartsOf(attempts, {id})
  {
  }

  lemma {:induction false} ReleaseIsBalanced(db: Db, key: string)
    ensures Balanced(db) ==> ReleaseArtifact(db, key).Ok? && Balanced(ReleaseArtifact(db, key).value)
  {
    if Balanced(db) { ReleaseKeeps(db, key); }
  }

  lemma {:induction false} CurrentNumbers(attempts: map<string, Attempt>, uploadId: string)
    ensures forall n :: n in CurrentParts(attempts, uploadId) ==> 1 <= n <= MAX_PARTS
  {
  }

  lemma {:induction false} NoCurrent(attempts: map<string, Attempt>, uploadId: string, n: nat)
    requires forall k :: k in attempts ==> !IsCurrent(attempts, k, uploadId, n)
    ensures n !in CurrentParts(attempts, uploadId)
  {
  }

  lemma {:induction false} CurrentIsUnique(db: Db, uploadId: string, n: nat, k: string)
    requires RowsLinked(db) && IsCurrent(db.attempts, k, uploadId, n) && 1 <= n <= MAX_PARTS
    ensures n in CurrentParts(db.attempts, uploadId) && CurrentParts(db.attempts, uploadId)[n] == db.attempts[k].part
  {
    forall j | IsCurrent(db.attempts, j, uploadId, n) ensures j == k {
      assert j != k ==> CurrentClash(db.attempts);
    }
  }
}
