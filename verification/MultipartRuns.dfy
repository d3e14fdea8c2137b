/**
 Whole runs of the staging repository: any number of request handlers and reconcilers interleave
 their transactions, and a completing worker's lease check and its compare-and-set are separate
 steps. Every run is shown to refine, per upload, a small reference automaton (`Phase`), and the
 safety properties are read off the automaton.
 */
module MultipartRuns {
  import opened Common
  import opened Multipart
  import opened MultipartAccounting

  /** What is remembered about one upload: every decision the repository took about it, in order. */
  datatype Entry =
    | LeaseGranted(token: nat, fingerprint: string, request: seq<CompletePart>, current: map<nat, Part>,
      selected: seq<Part>)
    | CompletedBy(token: nat, result: CompletionResult, checkedAt: nat)
    | AbortedByClient
    | ExpiredByReaper
    | ArtifactReleased
    | ResultReplayed(fingerprint: string, result: CompletionResult)
    | RequestRefused(fingerprint: string)
    | RowDropped(staged: nat, reserved: nat)

  predicate IsTerminal(e: Entry) {
    e.CompletedBy? || e.AbortedByClient? || e.ExpiredByReaper?
  }

  /** A worker that passed the lease check and still has to run its compare-and-set. */
  datatype Claim = Claim(uploadId: string, token: nat, result: CompletionResult, now: int, checkedAt: nat)

  datatype Sys = Sys(db: Db, workers: map<nat, Claim>, history: map<string, seq<Entry>>)

  datatype Event =
    | ECreate(identity: Identity, maxStagedBytes: nat, expiresAt: int)
    | EBegin(identity: Identity, partNumber: nat, bytes: nat, now: int, key: string, attempt: nat)
    | ECommit(identity: Identity, pending: PendingPart, part: Part)
    | ERelease(key: string)
    | EAcquire(identity: Identity, fingerprint: string, request: seq<CompletePart>, owner: string, leaseExpires: int,
      now: int)
    | ERenew(identity: Identity, token: nat, leaseExpires: int)
    | ECheckLease(worker: nat, identity: Identity, token: nat, result: CompletionResult, now: int)
    | ECompareAndComplete(worker: nat)
    | EAbort(identity: Identity, now: int)
    | EReap(uploadId: string, now: int)
    | ERetire(uploadId: string, now: int)
    | EDelete(identity: Identity)

  ghost function Record(history: map<string, seq<Entry>>, id: string, e: Entry): map<string, seq<Entry>> {
    if id in history then history[id := history[id] + [e]] else history
  }

  /** One atomic step. An event whose transaction fails, or is not possible, changes nothing. */
  ghost function Apply(s: Sys, e: Event): Sys {
    match e
    case ECreate(identity, maxStagedBytes, expiresAt) =>
      // upload ids are generated (UUIDv7), so an id is never handed out twice
      if identity.uploadId in s.history then s
      else
        (match Create(s.db, identity, maxStagedBytes, expiresAt)
         case Err(_) => s
         case Ok(db) => s.(db := db, history := s.history[identity.uploadId := []]))
    case EBegin(identity, partNumber, bytes, now, key, attempt) =>
      (match BeginPart(s.db, identity, partNumber, bytes, now, key, attempt)
       case Err(_) => s
       case Ok((db, _)) => s.(db := db))
    case ECommit(identity, pending, part) =>
      (match CommitPart(s.db, identity, pending, part)
       case Err(_) => s
       case Ok(db) => s.(db := db))
    case ERelease(key) =>
      if key !in s.db.attempts then s
      else
        (match ReleaseArtifact(s.db, key)
         case Err(_) => s
         case Ok(db) => s.(db := db, history := Record(s.history, s.db.attempts[key].part.uploadId, ArtifactReleased)))
    case EAcquire(identity, fingerprint, request, owner, leaseExpires, now) =>
      var id := identity.uploadId;
      (match AcquireCompletion(s.db, identity, fingerprint, request, owner, leaseExpires, now)
       case Err(CompletionConflict) => s.(history := Record(s.history, id, RequestRefused(fingerprint)))
       case Ok((db, Acquired(token, selected))) =>
         s.(db := db, history := Record(s.history, id,
              LeaseGranted(token, fingerprint, request, CurrentParts(s.db.attempts, id), selected)))
       case Ok((db, Replayed(result))) => s.(history := Record(s.history, id, ResultReplayed(fingerprint, result)))
       case _ => s)
    case ERenew(identity, token, leaseExpires) =>
      (match RenewCompletion(s.db, identity, token, leaseExpires)
       case Err(_) => s
       case Ok(db) => s.(db := db))
    case ECheckLease(worker, identity, token, result, now) =>
      var id := identity.uploadId;
      if CheckLease(s.db, identity, token, now).Ok? && id in s.history then
        s.(workers := s.workers[worker := Claim(id, token, result, now, |s.history[id]|)])
      else s
    case ECompareAndComplete(worker) =>
      if worker !in s.workers then s
      else
        var c := s.workers[worker];
        (match CompareAndComplete(s.db, c.uploadId, c.token, c.result, c.now)
         case Err(_) => s.(workers := s.workers - {worker})
         case Ok(db) => Sys(db, s.workers - {worker},
           Record(s.history, c.uploadId, CompletedBy(c.token, c.result, c.checkedAt))))
    case EAbort(identity, now) =>
      (match AbortUpload(s.db, identity, now)
       case Err(_) => s
       case Ok(db) => if db == s.db then s
         else s.(db := db, history := Record(s.history, identity.uploadId, AbortedByClient)))
    case EReap(uploadId, now) =>
      if !Reapable(s.db, uploadId, now) then s
      else s.(db := ReapUpload(s.db, uploadId, now), history := Record(s.history, uploadId, ExpiredByReaper))
    case ERetire(uploadId, now) =>
      if Retirable(s.db, uploadId, now) then Dropped(s, uploadId) else s
    case EDelete(identity) =>
      if Deletable(s.db, identity) then Dropped(s, identity.uploadId) else s
  }

  ghost function Dropped(s: Sys, id: string): Sys
    requires id in s.db.uploads
  {
    s.(db := DropUpload(s.db, id), history :=
      Record(s.history, id, RowDropped(s.db.uploads[id].staged, s.db.uploads[id].reserved)))
  }

  ghost function Start(limits: Limits): Sys {
    Sys(Db(limits, map[], map[], map[]), map[], map[])
  }

  /** The state after a run: the events in order, from empty tables. */
  ghost function Exec(limits: Limits, events: seq<Event>): Sys {
    if events == [] then Start(limits) else Apply(Exec(limits, events[..|events| - 1]), events[|events| - 1])
  }

  // ---- the reference automaton of one upload -------------------------------------------

  /** `since` is the position of the latest granted lease; `current` is unknown after a release. */
  datatype Phase =
    | Idle
    | Leased(token: nat, fingerprint: string, since: nat, current: Option<map<nat, Part>>)
    | Finished(fingerprint: string, result: CompletionResult)
    | Dead
    | Gone
    | Bad

  ghost function Grant(e: Entry, at: nat): Phase
    requires e.LeaseGranted?
  {
    if SelectParts(e.current, e.request) == Ok(e.selected) then Leased(e.token, e.fingerprint, at, Some(e.current))
      else Bad
  }

  ghost function Advance(p: Phase, e: Entry, at: nat): Phase {
    match e
    case LeaseGranted(token, fingerprint, _, current, _) =>
      if p.Idle? then Grant(e, at)
      else if p.Leased? && p.token < token && p.fingerprint == fingerprint
        && (p.current.None? || p.current.value == current)
      then Grant(e, at)
      else Bad
    case CompletedBy(token, result, checkedAt) =>
      if p.Leased? && p.token == token && p.since < checkedAt <= at then Finished(p.fingerprint, result) else Bad
    case AbortedByClient => if p.Idle? then Dead else Bad
    case ExpiredByReaper => if p.Idle? then Dead else Bad
    case ArtifactReleased => if p.Leased? then p.(current := None) else if p.Gone? then Bad else p
    case ResultReplayed(fingerprint, result) =>
      if p.Finished? && p.fingerprint == fingerprint && p.result == result then p else Bad
    case RequestRefused(fingerprint) =>
      if (p.Leased? || p.Finished?) && p.fingerprint != fingerprint then p else Bad
    case RowDropped(staged, reserved) =>
      if (p.Finished? || p.Dead?) && staged == 0 && reserved == 0 then Gone else Bad
  }

  ghost function Replay(h: seq<Entry>): Phase {
    if h == [] then Idle else Advance(Replay(h[..|h| - 1]), h[|h| - 1], |h| - 1)
  }

  // ---- the simulation --------------------------------------------------------------------

  /** The automaton's phase agrees with the row of the upload, or with its absence. */
  ghost predicate Agrees(p: Phase, db: Db, id: string) {
    if id !in db.uploads then p.Gone?
    else
      var upload := db.uploads[id];
      match upload.lifecycle
      case Open => p.Idle? && upload.token == 0
      case Completing =>
        && p.Leased? && upload.token == p.token && upload.fingerprint == Some(p.fingerprint)
        && (p.current.Some? ==> p.current.value == CurrentParts(db.attempts, id))
      case Completed => p.Finished? && upload.fingerprint == Some(p.fingerprint) && upload.result == Some(p.result)
      case Aborted => p.Dead?
      case Expired => p.Dead?
  }

  /** A claim is not ahead of the token, and while it holds the latest token no newer lease exists. */
  ghost predicate ClaimSound(c: Claim, history: map<string, seq<Entry>>) {
    && c.uploadId in history
    && c.checkedAt <= |history[c.uploadId]|
    && (var p := Replay(history[c.uploadId]);
        && !p.Idle?
        && (p.Leased? ==> c.token <= p.token && (c.token == p.token ==> p.since < c.checkedAt)))
  }

  ghost predicate Tracks(s: Sys) {
    && s.db.uploads.Keys <= s.history.Keys
    && (forall id :: id in s.history ==> Agrees(Replay(s.history[id]), s.db, id))
    && (forall w :: w in s.workers ==> ClaimSound(s.workers[w], s.history))
  }

  ghost predicate Inv(s: Sys) {
    Balanced(s.db) && Tracks(s)
  }

  lemma {:induction false} ReplaySnoc(h: seq<Entry>, e: Entry)
    ensures Replay(h + [e]) == Advance(Replay(h), e, |h|)
  {
    assert (h + [e])[..|h|] == h;
  }

  /** Recording an entry the automaton accepts keeps every outstanding claim sound. */
  lemma {:induction false} ClaimsSurvive(c: Claim, history: map<string, seq<Entry>>, id: string, e: Entry)
    requires ClaimSound(c, history) && id in history
    requires !Advance(Replay(history[id]), e, |history[id]|).Idle? || e.ArtifactReleased?
    requires e.LeaseGranted? ==>
             Replay(history[id]).Idle? || (Replay(history[id]).Leased? && Replay(history[id]).token < e.token)
    ensures ClaimSound(c, Record(history, id, e))
  {
    if c.uploadId == id { ReplaySnoc(history[id], e); }
  }

  /** A step about `id` that appends `e` and leaves the rows of other uploads alone keeps `Tracks`. */
  lemma {:induction false} TrackOne(s: Sys, s': Sys, id: string, e: Entry)
    requires Tracks(s) && id in s.history && s'.history == Record(s.history, id, e)
    requires forall w :: w in s'.workers ==> w in s.workers && s'.workers[w] == s.workers[w]
    requires s'.db.uploads.Keys <= s.history.Keys
    requires forall other :: other != id && other in s.history ==>
               Agrees(Replay(s.history[other]), s.db, other) ==> Agrees(Replay(s.history[other]), s'.db, other)
    requires Agrees(Advance(Replay(s.history[id]), e, |s.history[id]|), s'.db, id)
    requires !Advance(Replay(s.history[id]), e, |s.history[id]|).Idle? || e.ArtifactReleased?
    requires e.LeaseGranted? ==>
             Replay(s.history[id]).Idle? || (Replay(s.history[id]).Leased? && Replay(s.history[id]).token < e.token)
    ensures Tracks(s')
  {
    hide Advance, Replay, Agrees, ClaimSound;
    ReplaySnoc(s.history[id], e);
    forall w | w in s'.workers ensures ClaimSound(s'.workers[w], s'.history) {
      ClaimsSurvive(s.workers[w], s.history, id, e);
    }
  }

  /** The current parts of an upload depend only on its own current rows. */
  lemma {:induction false} CurrentPartsFrame(a: map<string, Attempt>, b: map<string, Attempt>, id: string)
    requires !CurrentClash(a) && !CurrentClash(b)
    requires forall k :: k in a && a[k].part.uploadId == id && a[k].state.CURRENT? ==> k in b && b[k] == a[k]
    requires forall k :: k in b && b[k].part.uploadId == id && b[k].state.CURRENT? ==> k in a && a[k] == b[k]
    ensures CurrentParts(a, id) == CurrentParts(b, id)
  {
    forall n | 1 <= n <= MAX_PARTS
      ensures HasCurrent(a, id, n) <==> HasCurrent(b, id, n)
      ensures n in CurrentParts(a, id) ==> CurrentParts(a, id)[n] == CurrentParts(b, id)[n]
    {
      if k :| IsCurrent(a, k, id, n) {
        assert IsCurrent(b, k, id, n);
        UniqueCurrent(a, id, n, k);
        UniqueCurrent(b, id, n, k);
      } else if k :| IsCurrent(b, k, id, n) {
        assert IsCurrent(a, k, id, n);
      }
    }
  }

  lemma {:induction false} UniqueCurrent(attempts: map<string, Attempt>, id: string, n: nat, k: string)
    requires !CurrentClash(attempts) && IsCurrent(attempts, k, id, n) && 1 <= n <= MAX_PARTS
    ensures CurrentParts(attempts, id)[n] == attempts[k].part
  {
    forall j | IsCurrent(attempts, j, id, n) ensures j == k {
      assert j != k ==> CurrentClash(attempts);
    }
  }

  // ---- each step -------------------------------------------------------------------------

  ghost predicate SameDecisions(a: Upload, b: Upload) {
    a.lifecycle == b.lifecycle && a.token == b.token && a.fingerprint == b.fingerprint && a.result == b.result
  }

  /** A step that takes no decision and changes no current part of a leased upload. */
  lemma {:induction false} QuietStep(s: Sys, db: Db)
    requires Tracks(s) && db.uploads.Keys == s.db.uploads.Keys
    requires forall id :: id in db.uploads ==> SameDecisions(s.db.uploads[id], db.uploads[id])
    requires forall id :: id in db.uploads && db.uploads[id].lifecycle.Completing? ==>
               CurrentParts(db.attempts, id) == CurrentParts(s.db.attempts, id)
    ensures Tracks(s.(db := db))
  {
    forall id | id in s.history ensures Agrees(Replay(s.history[id]), db, id) {
      assert Agrees(Replay(s.history[id]), s.db, id);
    }
  }

  lemma {:induction false} TrackCreate(s: Sys, identity: Identity, maxStagedBytes: nat, expiresAt: int)
    requires Tracks(s)
    ensures Tracks(Apply(s, ECreate(identity, maxStagedBytes, expiresAt)))
  {
    var s' := Apply(s, ECreate(identity, maxStagedBytes, expiresAt));
    if s' != s {
      forall id | id in s'.history ensures Agrees(Replay(s'.history[id]), s'.db, id) {
        if id != identity.uploadId { assert Agrees(Replay(s.history[id]), s.db, id); }
      }
    }
  }

  lemma {:induction false} StepCreate(s: Sys, identity: Identity, maxStagedBytes: nat, expiresAt: int)
    requires Inv(s)
    ensures Inv(Apply(s, ECreate(identity, maxStagedBytes, expiresAt)))
  {
    hide Balanced, Tracks;
    TrackCreate(s, identity, maxStagedBytes, expiresAt);
    if Create(s.db, identity, maxStagedBytes, expiresAt).Ok? {
      CreateKeeps(s.db, identity, maxStagedBytes, expiresAt);
    }
  }

  lemma {:induction false} TrackBegin(s: Sys, identity: Identity, partNumber: nat, bytes: nat, now: int, key: string,
      attempt: nat)
    requires Tracks(s) && BeginPart(s.db, identity, partNumber, bytes, now, key, attempt).Ok?
    requires RowsLinked(s.db) && RowsLinked(BeginPart(s.db, identity, partNumber, bytes, now, key, attempt).value.0)
    ensures Tracks(Apply(s, EBegin(identity, partNumber, bytes, now, key, attempt)))
  {
    hide CurrentParts, CurrentClash, Replay;
    var db := BeginPart(s.db, identity, partNumber, bytes, now, key, attempt).value.0;
    forall id ensures CurrentParts(db.attempts, id) == CurrentParts(s.db.attempts, id) {
      CurrentPartsFrame(db.attempts, s.db.attempts, id);
    }
    QuietStep(s, db);
  }

  lemma {:induction false} StepBegin(s: Sys, identity: Identity, partNumber: nat, bytes: nat, now: int, key: string,
      attempt: nat)
    requires Inv(s)
    ensures Inv(Apply(s, EBegin(identity, partNumber, bytes, now, key, attempt)))
  {
    hide UploadBalanced, QuotaBalanced, CurrentClash;
    if BeginPart(s.db, identity, partNumber, bytes, now, key, attempt).Ok? {
      BeginKeeps(s.db, identity, partNumber, bytes, now, key, attempt);
      TrackBegin(s, identity, partNumber, bytes, now, key, attempt);
    }
  }

  /** Publishing a part touches the current parts of no other upload. */
  lemma {:induction false} CommitFrame(db: Db, identity: Identity, pending: PendingPart, part: Part, id: string)
    requires CommitPart(db, identity, pending, part).Ok? && id != identity.uploadId
    requires !CurrentClash(db.attempts) && !CurrentClash(CommitPart(db, identity, pending, part).value.attempts)
    ensures CurrentParts(CommitPart(db, identity, pending, part).value.attempts, id) == CurrentParts(db.attempts, id)
  {
    CurrentPartsFrame(CommitPart(db, identity, pending, part).value.attempts, db.attempts, id);
  }

  lemma {:induction false} TrackCommit(s: Sys, identity: Identity, pending: PendingPart, part: Part)
    requires Tracks(s) && CommitPart(s.db, identity, pending, part).Ok?
    requires !CurrentClash(s.db.attempts) && !CurrentClash(CommitPart(s.db, identity, pending, part).value.attempts)
    ensures Tracks(Apply(s, ECommit(identity, pending, part)))
  {
    hide CurrentParts, CurrentClash, Replay;
    var db := CommitPart(s.db, identity, pending, part).value;
    forall id | id != identity.uploadId ensures CurrentParts(db.attempts, id) == CurrentParts(s.db.attempts, id) {
      CommitFrame(s.db, identity, pending, part, id);
    }
    QuietStep(s, db);
  }

  lemma {:induction false} StepCommit(s: Sys, identity: Identity, pending: PendingPart, part: Part)
    requires Inv(s)
    ensures Inv(Apply(s, ECommit(identity, pending, part)))
  {
    hide UploadBalanced, QuotaBalanced, CurrentClash;
    if CommitPart(s.db, identity, pending, part).Ok? {
      CommitKeeps(s.db, identity, pending, part);
      TrackCommit(s, identity, pending, part);
    }
  }

  lemma {:induction false} ReleaseFrame(db: Db, key: string, id: string)
    requires key in db.attempts && db.attempts[key].part.uploadId != id
    requires !CurrentClash(db.attempts) && !CurrentClash(db.attempts - {key})
    ensures CurrentParts(db.attempts - {key}, id) == CurrentParts(db.attempts, id)
  {
    CurrentPartsFrame(db.attempts - {key}, db.attempts, id);
  }

  lemma {:induction false} TrackRelease(s: Sys, key: string)
    requires Tracks(s) && key in s.db.attempts && ReleaseArtifact(s.db, key).Ok?
    requires !CurrentClash(s.db.attempts) && !CurrentClash(s.db.attempts - {key})
    ensures Tracks(Apply(s, ERelease(key)))
  {
    hide CurrentParts, CurrentClash, Replay;
    var s' := Apply(s, ERelease(key));
    var id := s.db.attempts[key].part.uploadId;
    forall other | other != id ensures CurrentParts(s'.db.attempts, other) == CurrentParts(s.db.attempts, other) {
      ReleaseFrame(s.db, key, other);
    }
    assert Agrees(Replay(s.history[id]), s.db, id);
    TrackOne(s, s', id, ArtifactReleased);
  }

  lemma {:induction false} StepRelease(s: Sys, key: string)
    requires Inv(s)
    ensures Inv(Apply(s, ERelease(key)))
  {
    hide UploadBalanced, QuotaBalanced, CurrentClash;
    if key in s.db.attempts {
      ReleaseKeeps(s.db, key);
      TrackRelease(s, key);
    }
  }

  /** A step that rewrites the decision fields of one upload and records the decision. */
  lemma {:induction false} DecisionStep(s: Sys, s': Sys, id: string, upload: Upload, e: Entry)
    requires Tracks(s) && id in s.db.uploads
    requires s'.db == s.db.(uploads := s.db.uploads[id := upload]) && s'.history == Record(s.history, id, e)
    requires forall w :: w in s'.workers ==> w in s.workers && s'.workers[w] == s.workers[w]
    requires var p := Advance(Replay(s.history[id]), e, |s.history[id]|); Agrees(p, s'.db, id) && !p.Idle?
    requires e.LeaseGranted? ==>
             Replay(s.history[id]).Idle? || (Replay(s.history[id]).Leased? && Replay(s.history[id]).token < e.token)
    ensures Tracks(s')
  {
    hide Replay, Advance, ClaimSound, CurrentParts;
    TrackOne(s, s', id, e);
  }

  lemma {:induction false} TrackGranted(s: Sys, identity: Identity, fingerprint: string, request: seq<CompletePart>,
      owner: string, leaseExpires: int, now: int,
                     db: Db, token: nat, selected: seq<Part>)
    requires Tracks(s)
    requires AcquireCompletion(s.db, identity, fingerprint, request, owner, leaseExpires, now) ==
             Ok((db, Acquired(token, selected)))
    ensures Tracks(s.(db := db, history := Record(s.history, identity.uploadId,
                   LeaseGranted(token, fingerprint, request, CurrentParts(s.db.attempts, identity.uploadId),
                     selected))))
  {
    hide SelectParts, CurrentParts, Replay, ClaimSound, Record;
    var id := identity.uploadId;
    var e := LeaseGranted(token, fingerprint, request, CurrentParts(s.db.attempts, id), selected);
    assert Agrees(Replay(s.history[id]), s.db, id);
    DecisionStep(s, s.(db := db, history := Record(s.history, id, e)), id, db.uploads[id], e);
  }

  lemma {:induction false} TrackAnswered(s: Sys, identity: Identity, fingerprint: string, e: Entry)
    requires Tracks(s) && Authorized(s.db, identity)
    requires var upload := s.db.uploads[identity.uploadId];
             || (e == RequestRefused(fingerprint) && (upload.lifecycle.Completing? || upload.lifecycle.Completed?)
                 && upload.fingerprint != Some(fingerprint))
             || (upload.lifecycle.Completed? && upload.result.Some? && upload.fingerprint == Some(fingerprint)
                 && e == ResultReplayed(fingerprint, upload.result.value))
    ensures Tracks(s.(history := Record(s.history, identity.uploadId, e)))
  {
    var id := identity.uploadId;
    assert Agrees(Replay(s.history[id]), s.db, id);
    assert s.db.uploads == s.db.uploads[id := s.db.uploads[id]];
    DecisionStep(s, s.(history := Record(s.history, id, e)), id, s.db.uploads[id], e);
  }

  lemma {:induction false} StepAcquire(s: Sys, identity: Identity, fingerprint: string, request: seq<CompletePart>,
      owner: string, leaseExpires: int, now: int)
    requires Inv(s)
    ensures Inv(Apply(s, EAcquire(identity, fingerprint, request, owner, leaseExpires, now)))
  {
    hide Balanced, Tracks;
    match AcquireCompletion(s.db, identity, fingerprint, request, owner, leaseExpires, now)
    case Ok((db, Acquired(token, selected))) =>
      TrackGranted(s, identity, fingerprint, request, owner, leaseExpires, now, db, token, selected);
      BalanceGranted(s.db, identity, fingerprint, request, owner, leaseExpires, now, db, token, selected);
    case Ok((db, Replayed(result))) => TrackAnswered(s, identity, fingerprint, ResultReplayed(fingerprint, result));
    case Err(CompletionConflict) => TrackAnswered(s, identity, fingerprint, RequestRefused(fingerprint));
    case _ =>
  }

  lemma {:induction false} BalanceGranted(db: Db, identity: Identity, fingerprint: string, request: seq<CompletePart>,
      owner: string, leaseExpires: int, now: int,
                       db': Db, token: nat, selected: seq<Part>)
    requires Balanced(db)
    requires AcquireCompletion(db, identity, fingerprint, request, owner, leaseExpires, now) ==
             Ok((db', Acquired(token, selected)))
    ensures Balanced(db')
  {
    LifecycleChangeKeeps(db, identity.uploadId, db'.uploads[identity.uploadId]);
  }

  lemma {:induction false} StepRenew(s: Sys, identity: Identity, token: nat, leaseExpires: int)
    requires Inv(s)
    ensures Inv(Apply(s, ERenew(identity, token, leaseExpires)))
  {
    hide UploadBalanced, QuotaBalanced, CurrentClash;
    var r := RenewCompletion(s.db, identity, token, leaseExpires);
    if r.Ok? {
      LifecycleChangeKeeps(s.db, identity.uploadId, r.value.uploads[identity.uploadId]);
      TrackRenew(s, identity, token, leaseExpires);
    }
  }

  lemma {:induction false} TrackRenew(s: Sys, identity: Identity, token: nat, leaseExpires: int)
    requires Tracks(s) && RenewCompletion(s.db, identity, token, leaseExpires).Ok?
    ensures Tracks(Apply(s, ERenew(identity, token, leaseExpires)))
  {
    QuietStep(s, RenewCompletion(s.db, identity, token, leaseExpires).value);
  }

  lemma {:induction false} SinceInRange(h: seq<Entry>)
    ensures Replay(h).Leased? ==> Replay(h).since < |h|
  {
    if h != [] { SinceInRange(h[..|h| - 1]); }
  }

  lemma {:induction false} StepCheck(s: Sys, worker: nat, identity: Identity, token: nat, result: CompletionResult,
      now: int)
    requires Inv(s)
    ensures Inv(Apply(s, ECheckLease(worker, identity, token, result, now)))
  {
    hide UploadBalanced, QuotaBalanced, CurrentClash;
    var id := identity.uploadId;
    if CheckLease(s.db, identity, token, now).Ok? {
      assert Agrees(Replay(s.history[id]), s.db, id);
      SinceInRange(s.history[id]);
    }
  }

  lemma {:induction false} TrackComplete(s: Sys, worker: nat)
    requires Tracks(s) && worker in s.workers
    requires var c := s.workers[worker]; CompareAndComplete(s.db, c.uploadId, c.token, c.result, c.now).Ok?
    ensures Tracks(Apply(s, ECompareAndComplete(worker)))
  {
    hide CurrentParts;
    var c := s.workers[worker];
    var db := CompareAndComplete(s.db, c.uploadId, c.token, c.result, c.now).value;
    assert ClaimSound(c, s.history) && Agrees(Replay(s.history[c.uploadId]), s.db, c.uploadId);
    DecisionStep(s, Apply(s, ECompareAndComplete(worker)), c.uploadId, db.uploads[c.uploadId],
                 CompletedBy(c.token, c.result, c.checkedAt));
  }

  lemma {:induction false} StepComplete(s: Sys, worker: nat)
    requires Inv(s)
    ensures Inv(Apply(s, ECompareAndComplete(worker)))
  {
    hide UploadBalanced, QuotaBalanced, CurrentClash, ClaimSound, Agrees;
    if worker in s.workers {
      var c := s.workers[worker];
      var r := CompareAndComplete(s.db, c.uploadId, c.token, c.result, c.now);
      if r.Ok? {
        LifecycleChangeKeeps(s.db, c.uploadId, r.value.uploads[c.uploadId]);
        TrackComplete(s, worker);
      }
    }
  }

  lemma {:induction false} StepAbort(s: Sys, identity: Identity, now: int)
    requires Inv(s)
    ensures Inv(Apply(s, EAbort(identity, now)))
  {
    hide UploadBalanced, QuotaBalanced, CurrentClash;
    var s' := Apply(s, EAbort(identity, now));
    var id := identity.uploadId;
    if s' != s {
      assert Agrees(Replay(s.history[id]), s.db, id);
      LifecycleChangeKeeps(s.db, id, s'.db.uploads[id]);
      DecisionStep(s, s', id, s'.db.uploads[id], AbortedByClient);
    }
  }

  lemma {:induction false} StepReap(s: Sys, id: string, now: int)
    requires Inv(s)
    ensures Inv(Apply(s, EReap(id, now)))
  {
    hide UploadBalanced, QuotaBalanced, CurrentClash, Retirable, Deletable;
    var s' := Apply(s, EReap(id, now));
    if s' != s {
      assert Agrees(Replay(s.history[id]), s.db, id);
      LifecycleChangeKeeps(s.db, id, s'.db.uploads[id]);
      DecisionStep(s, s', id, s'.db.uploads[id], ExpiredByReaper);
    }
  }

  lemma {:induction false} StepDrop(s: Sys, id: string)
    requires Inv(s) && id in s.db.uploads && !HasAttempts(s.db.attempts, id)
    requires !s.db.uploads[id].lifecycle.Open? && !s.db.uploads[id].lifecycle.Completing?
    ensures Inv(Dropped(s, id))
  {
    hide UploadBalanced, QuotaBalanced, CurrentClash;
    DropKeeps(s.db, id);
    TrackDrop(s, id);
  }

  lemma {:induction false} TrackDrop(s: Sys, id: string)
    requires Tracks(s) && id in s.db.uploads && s.db.uploads[id].staged == s.db.uploads[id].reserved == 0
    requires !s.db.uploads[id].lifecycle.Open? && !s.db.uploads[id].lifecycle.Completing?
    ensures Tracks(Dropped(s, id))
  {
    assert Agrees(Replay(s.history[id]), s.db, id);
    TrackOne(s, Dropped(s, id), id, RowDropped(0, 0));
  }

  lemma {:induction false} StepRetire(s: Sys, uploadId: string, now: int)
    requires Inv(s)
    ensures Inv(Apply(s, ERetire(uploadId, now)))
  {
    hide Inv;
    if Retirable(s.db, uploadId, now) { StepDrop(s, uploadId); }
  }

  lemma {:induction false} StepDelete(s: Sys, identity: Identity)
    requires Inv(s)
    ensures Inv(Apply(s, EDelete(identity)))
  {
    hide Inv;
    if Deletable(s.db, identity) { StepDrop(s, identity.uploadId); }
  }

  lemma {:induction false} StepKeeps(s: Sys, e: Event)
    requires Inv(s)
    ensures Inv(Apply(s, e))
  {
    hide *;
    match e
    case ECreate(identity, maxStagedBytes, expiresAt) => StepCreate(s, identity, maxStagedBytes, expiresAt);
    case EBegin(identity, partNumber, bytes, now, key, attempt) =>
      StepBegin(s, identity, partNumber, bytes, now, key, attempt);
    case ECommit(identity, pending, part) => StepCommit(s, identity, pending, part);
    case ERelease(key) => StepRelease(s, key);
    case EAcquire(identity, fingerprint, request, owner, leaseExpires, now) =>
      StepAcquire(s, identity, fingerprint, request, owner, leaseExpires, now);
    case ERenew(identity, token, leaseExpires) => StepRenew(s, identity, token, leaseExpires);
    case ECheckLease(worker, identity, token, result, now) => StepCheck(s, worker, identity, token, result, now);
    case ECompareAndComplete(worker) => StepComplete(s, worker);
    case EAbort(identity, now) => StepAbort(s, identity, now);
    case EReap(uploadId, now) => StepReap(s, uploadId, now);
    case ERetire(uploadId, now) => StepRetire(s, uploadId, now);
    case EDelete(identity) => StepDelete(s, identity);
  }

  lemma {:induction false} StartHolds(limits: Limits)
    ensures Inv(Start(limits))
  {
    forall scope ensures QuotaBalanced(Start(limits).db, scope) {
      SumZero(StagedIn(map[], scope));
      SumZero(ReservedIn(map[], scope));
    }
  }

  /** Every run, every interleaving: the tables balance and each upload's history follows its automaton. */
  lemma {:induction false} EveryRunHolds(limits: Limits, events: seq<Event>)
    ensures Inv(Exec(limits, events))
  {
    if events == [] {
      StartHolds(limits);
    } else {
      EveryRunHolds(limits, events[..|events| - 1]);
      StepKeeps(Exec(limits, events[..|events| - 1]), events[|events| - 1]);
    }
  }
}
