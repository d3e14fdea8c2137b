/** What the reference automaton implies about the history of an upload in any run. */
module MultipartSafety {
  import opened Common
  import opened Multipart
  import opened MultipartAccounting
  import opened MultipartRuns

  /** How a phase can be followed by a later one. */
  ghost predicate Reaches(p: Phase, q: Phase) {
    match p
    case Bad => q.Bad?
    case Gone => q.Gone? || q.Bad?
    case Dead => q.Dead? || q.Gone? || q.Bad?
    case Finished(fingerprint, result) => q == p || q.Gone? || q.Bad?
    case Leased(token, fingerprint, since, _) =>
      || (q.Leased? && q.fingerprint == fingerprint && (if q.token == token then q.since == since else q.token > token))
      || (q.Finished? && q.fingerprint == fingerprint) || q.Gone? || q.Bad?
    case Idle => true
  }

  ghost function PhaseAt(h: seq<Entry>, i: nat): Phase
    requires i <= |h|
  {
    Replay(h[..i])
  }

  lemma {:induction false} PhaseNext(h: seq<Entry>, i: nat)
    requires i < |h|
    ensures PhaseAt(h, i + 1) == Advance(PhaseAt(h, i), h[i], i)
  {
    assert h[..i + 1] == h[..i] + [h[i]];
    ReplaySnoc(h[..i], h[i]);
  }

  lemma {:induction false} PhasesReach(h: seq<Entry>, i: nat, j: nat)
    requires i <= j <= |h|
    ensures Reaches(PhaseAt(h, i), PhaseAt(h, j))
    decreases j
  {
    if i < j {
      PhasesReach(h, i, j - 1);
      PhaseNext(h, j - 1);
    }
  }

  /** No prefix of an accepted history is rejected. */
  lemma {:induction false} PrefixAccepted(h: seq<Entry>, i: nat)
    requires i <= |h| && !Replay(h).Bad?
    ensures !PhaseAt(h, i).Bad?
  {
    assert h[..|h|] == h;
    PhasesReach(h, i, |h|);
  }

  /** What an accepted grant says about the phases around it. */
  lemma {:induction false} AroundGrant(h: seq<Entry>, i: nat)
    requires !Replay(h).Bad? && i < |h| && h[i].LeaseGranted?
    ensures PhaseAt(h, i + 1) == Leased(h[i].token, h[i].fingerprint, i, Some(h[i].current))
    ensures SelectParts(h[i].current, h[i].request) == Ok(h[i].selected)
    ensures var p := PhaseAt(h, i);
            p.Idle? || (p.Leased? && p.token < h[i].token && p.fingerprint == h[i].fingerprint
              && (p.current.Some? ==> p.current.value == h[i].current))
  {
    PhaseNext(h, i);
    PrefixAccepted(h, i + 1);
  }

  lemma {:induction false} AroundOutcome(h: seq<Entry>, i: nat)
    requires !Replay(h).Bad? && i < |h| && IsTerminal(h[i])
    ensures PhaseAt(h, i).Idle? || PhaseAt(h, i).Leased?
    ensures PhaseAt(h, i + 1).Finished? || PhaseAt(h, i + 1).Dead?
  {
    PhaseNext(h, i);
    PrefixAccepted(h, i + 1);
  }

  /** Completed, aborted and expired exclude one another, and none happens twice. */
  lemma {:induction false} OneOutcome(h: seq<Entry>, i: nat, j: nat)
    requires !Replay(h).Bad? && i < j < |h| && IsTerminal(h[i])
    ensures !IsTerminal(h[j]) && !h[j].LeaseGranted?
  {
    hide Replay, Advance;
    AroundOutcome(h, i);
    PhasesReach(h, i + 1, j);
    if IsTerminal(h[j]) { AroundOutcome(h, j); } else if h[j].LeaseGranted? { AroundGrant(h, j); }
  }

  /** Later leases carry larger fencing tokens and the same request fingerprint. */
  lemma {:induction false} TokensIncrease(h: seq<Entry>, i: nat, j: nat)
    requires !Replay(h).Bad? && i < j < |h| && h[i].LeaseGranted? && h[j].LeaseGranted?
    ensures h[i].token < h[j].token && h[i].fingerprint == h[j].fingerprint
  {
    hide Replay;
    AroundGrant(h, i);
    AroundGrant(h, j);
    PhasesReach(h, i + 1, j);
  }

  lemma {:induction false} LeaseWasGranted(h: seq<Entry>, n: nat)
    requires n <= |h| && PhaseAt(h, n).Leased?
    ensures var p := PhaseAt(h, n); p.since < n && h[p.since].LeaseGranted? && h[p.since].token == p.token
    decreases n
  {
    PhaseNext(h, n - 1);
    if !h[n - 1].LeaseGranted? { LeaseWasGranted(h, n - 1); }
  }

  /**
   A completion is made under the latest lease ever granted for the upload, and no lease was granted
   between the worker's lease check and its compare-and-set.
   */
  lemma {:induction false} CompletedUnderLatestLease(h: seq<Entry>, j: nat) returns (since: nat)
    requires !Replay(h).Bad? && j < |h| && h[j].CompletedBy?
    ensures since < j && h[since].LeaseGranted? && h[since].token == h[j].token
    ensures since < h[j].checkedAt <= j
    ensures forall i :: 0 <= i < |h| && h[i].LeaseGranted? && i != since ==> i < since && h[i].token < h[j].token
  {
    hide Replay;
    PhaseNext(h, j);
    PrefixAccepted(h, j + 1);
    LeaseWasGranted(h, j);
    since := PhaseAt(h, j).since;
    forall i | 0 <= i < |h| && h[i].LeaseGranted? && i != since ensures i < since && h[i].token < h[j].token {
      if i < since {
        TokensIncrease(h, i, since);
      } else if i < j {
        AroundGrant(h, i);
        PhasesReach(h, i + 1, j);
        TokensIncrease(h, since, i);
        assert false;
      } else if i > j {
        OneOutcome(h, j, i);
        assert false;
      }
    }
  }

  lemma {:induction false} FinishedWasCompleted(h: seq<Entry>, n: nat) returns (j: nat)
    requires n <= |h| && PhaseAt(h, n).Finished?
    ensures j < n && h[j].CompletedBy? && h[j].result == PhaseAt(h, n).result
    decreases n
  {
    PhaseNext(h, n - 1);
    if h[n - 1].CompletedBy? { j := n - 1; } else { j := FinishedWasCompleted(h, n - 1); }
  }

  /** A replay returns exactly the recorded result, and only to the request that was granted the lease. */
  lemma {:induction false} ReplayIsExact(h: seq<Entry>, k: nat) returns (j: nat)
    requires !Replay(h).Bad? && k < |h| && h[k].ResultReplayed?
    ensures j < k && h[j].CompletedBy? && h[j].result == h[k].result
    ensures forall i :: 0 <= i < |h| && h[i].LeaseGranted? ==> h[i].fingerprint == h[k].fingerprint
  {
    hide Replay;
    PhaseNext(h, k);
    PrefixAccepted(h, k + 1);
    j := FinishedWasCompleted(h, k);
    forall i | 0 <= i < |h| && h[i].LeaseGranted? ensures h[i].fingerprint == h[k].fingerprint {
      if i < k {
        AroundGrant(h, i);
        PhasesReach(h, i + 1, k);
      } else {
        OneOutcome(h, j, i);
        assert false;
      }
    }
  }

  lemma {:induction false} AroundRefusal(h: seq<Entry>, k: nat)
    requires !Replay(h).Bad? && k < |h| && h[k].RequestRefused?
    ensures var p := PhaseAt(h, k); (p.Leased? || p.Finished?) && p.fingerprint != h[k].fingerprint
  {
    PhaseNext(h, k);
    PrefixAccepted(h, k + 1);
  }

  /** A conflict is only ever reported to a request other than the one that holds the lease. */
  lemma {:induction false} RefusalIsOfAnother(h: seq<Entry>, k: nat, i: nat)
    requires !Replay(h).Bad? && k < |h| && h[k].RequestRefused? && i < |h| && h[i].LeaseGranted?
    ensures h[i].fingerprint != h[k].fingerprint
  {
    hide Replay;
    AroundRefusal(h, k);
    AroundGrant(h, i);
    if i < k { PhasesReach(h, i + 1, k); } else { PhasesReach(h, k, i); }
  }

  lemma {:induction false} CurrentKept(h: seq<Entry>, i: nat, j: nat)
    requires !Replay(h).Bad? && i < j <= |h| && h[i].LeaseGranted?
    requires forall k :: i < k < j ==> !h[k].ArtifactReleased?
    ensures PhaseAt(h, j).Leased? ==> PhaseAt(h, j).current == Some(h[i].current)
    decreases j
  {
    hide Replay;
    if j == i + 1 {
      AroundGrant(h, i);
    } else {
      PhaseNext(h, j - 1);
      AroundGrant(h, i);
      PhasesReach(h, i + 1, j - 1);
      CurrentKept(h, i, j - 1);
    }
  }

  lemma {:induction false} SelectedAscends(current: map<nat, Part>, requested: seq<CompletePart>, previous: nat)
    requires SelectFrom(current, requested, previous).Ok?
    ensures forall i :: 0 <= i < |requested| ==> previous < requested[i].partNumber
    ensures forall i, j :: 0 <= i < j < |requested| ==> requested[i].partNumber < requested[j].partNumber
    ensures forall i :: 0 <= i < |requested| ==>
              && requested[i].partNumber in current
              && SelectFrom(current, requested, previous).value[i] == current[requested[i].partNumber]
              && Matches(current[requested[i].partNumber], requested[i])
  {
    if requested != [] {
      SelectedAscends(current, requested[1..], requested[0].partNumber);
    }
  }

  /** The converse: an ascending request whose every entry names a matching current part is accepted. */
  lemma {:induction false} AscendingIsSelected(current: map<nat, Part>, requested: seq<CompletePart>, previous: nat)
    requires forall i :: 0 <= i < |requested| ==> previous < requested[i].partNumber
    requires forall i, j :: 0 <= i < j < |requested| ==> requested[i].partNumber < requested[j].partNumber
    requires forall i :: 0 <= i < |requested| ==>
               requested[i].partNumber in current && Matches(current[requested[i].partNumber], requested[i])
    ensures SelectFrom(current, requested, previous).Ok?
  {
    if requested != [] {
      AscendingIsSelected(current, requested[1..], requested[0].partNumber);
    }
  }

  /**
   With no artifact released in between, a takeover with the same request gets the same selection,
   and every selection is a strictly ascending list of the current parts the request names.
   */
  lemma {:induction false} SelectionIsStable(h: seq<Entry>, i: nat, j: nat)
    requires !Replay(h).Bad? && i < j < |h| && h[i].LeaseGranted? && h[j].LeaseGranted?
    requires forall k :: i < k < j ==> !h[k].ArtifactReleased?
    ensures h[i].request == h[j].request ==> h[i].selected == h[j].selected
    ensures |h[j].selected| == |h[j].request| > 0
    ensures forall a, b :: 0 <= a < b < |h[j].request| ==> 0 < h[j].request[a].partNumber < h[j].request[b].partNumber
    ensures forall a :: 0 <= a < |h[j].request| ==>
              h[j].request[a].partNumber in h[j].current && h[j].selected[a] == h[j].current[h[j].request[a].partNumber]
  {
    hide Replay;
    AroundGrant(h, i);
    AroundGrant(h, j);
    CurrentKept(h, i, j);
    PhasesReach(h, i + 1, j);
    SelectedAscends(h[j].current, h[j].request, 0);
  }

  /** An upload row leaves the table only after its outcome is decided and with no bytes on it. */
  lemma {:induction false} DroppedIsSettled(h: seq<Entry>, k: nat)
    requires !Replay(h).Bad? && k < |h| && h[k].RowDropped?
    ensures h[k].staged == h[k].reserved == 0 && k == |h| - 1
    ensures PhaseAt(h, k).Finished? || PhaseAt(h, k).Dead?
  {
    PhaseNext(h, k);
    PrefixAccepted(h, k + 1);
    if k + 1 < |h| {
      PhaseNext(h, k + 1);
      PrefixAccepted(h, k + 2);
      assert false;
    }
  }

  // ---- over whole runs ---------------------------------------------------------------------

  /** In every run each upload's history is one the automaton accepts. */
  lemma {:induction false} HistoriesAreAccepted(limits: Limits, events: seq<Event>, id: string)
    requires id in Exec(limits, events).history
    ensures !Replay(Exec(limits, events).history[id]).Bad?
  {
    EveryRunHolds(limits, events);
    assert Agrees(Replay(Exec(limits, events).history[id]), Exec(limits, events).db, id);
  }

  /** In every run an upload is completed at most once, by the holder of the latest fencing token. */
  lemma {:induction false} CompletedAtMostOnce(limits: Limits, events: seq<Event>, id: string, j: nat)
    requires id in Exec(limits, events).history
    requires var h := Exec(limits, events).history[id]; j < |h| && h[j].CompletedBy?
    ensures var h := Exec(limits, events).history[id];
            && (forall i :: 0 <= i < |h| && i != j ==> !IsTerminal(h[i]))
            && (forall i :: 0 <= i < |h| && h[i].LeaseGranted? ==> i < j && h[i].token <= h[j].token)
  {
    var h := Exec(limits, events).history[id];
    HistoriesAreAccepted(limits, events, id);
    var since := CompletedUnderLatestLease(h, j);
    forall i | 0 <= i < |h| && i != j ensures !IsTerminal(h[i]) {
      if i < j {
        if IsTerminal(h[i]) { OneOutcome(h, i, j); assert false; }
      } else {
        OneOutcome(h, j, i);
      }
    }
  }

  /** Where a run left an upload whose row is still there after a lease was granted. */
  lemma {:induction false} AfterAnyLease(limits: Limits, events: seq<Event>, id: string, i: nat)
    requires var s := Exec(limits, events);
             id in s.history && id in s.db.uploads && i < |s.history[id]| && s.history[id][i].LeaseGranted?
    ensures var s := Exec(limits, events);
            var upload, h := s.db.uploads[id], s.history[id];
            && (upload.lifecycle.Completing? || upload.lifecycle.Completed?)
            && upload.fingerprint == Some(h[i].fingerprint)
            && (upload.lifecycle.Completed? ==>
               exists j :: 0 <= j < |h| && h[j].CompletedBy? && upload.result == Some(h[j].result))
            && (upload.lifecycle.Completing? ==> forall j :: 0 <= j < |h| ==> !IsTerminal(h[j]))
  {
    hide Replay, Exec, Balanced;
    var s := Exec(limits, events);
    var h := s.history[id];
    EveryRunHolds(limits, events);
    assert Agrees(Replay(h), s.db, id);
    AroundGrant(h, i);
    PhasesReach(h, i + 1, |h|);
    assert h[..|h|] == h;
    if s.db.uploads[id].lifecycle.Completed? {
      var j := FinishedWasCompleted(h, |h|);
    } else {
      forall j | 0 <= j < |h| ensures !IsTerminal(h[j]) {
        if IsTerminal(h[j]) {
          AroundOutcome(h, j);
          PhasesReach(h, j + 1, |h|);
        }
      }
    }
  }

  /**
   Once a lease was granted, a request conflicts exactly when its fingerprint is another one, while the
   completion is under way as well as afterwards.
   */
  lemma {:induction false} AnotherRequestConflicts(limits: Limits, events: seq<Event>, identity: Identity,
      fingerprint: string,
                                                   request: seq<CompletePart>, owner: string, leaseExpires: int,
                                                     now: int, i: nat)
    requires var s := Exec(limits, events);
             && Authorized(s.db, identity) && identity.uploadId in s.history
             && i < |s.history[identity.uploadId]| && s.history[identity.uploadId][i].LeaseGranted?
    ensures var s := Exec(limits, events);
            AcquireCompletion(s.db, identity, fingerprint, request, owner, leaseExpires, now) ==
              Err(CompletionConflict) <==>
            fingerprint != s.history[identity.uploadId][i].fingerprint
  {
    hide Exec, CurrentParts, SelectFrom;
    AfterAnyLease(limits, events, identity.uploadId, i);
  }

  /**
   After the completion every request is answered from the record: the identical one gets exactly the recorded
   result and changes nothing, any other one a conflict.
   */
  lemma {:induction false} CompletionAnswersExactly(limits: Limits, events: seq<Event>, identity: Identity,
      fingerprint: string,
                                                    request: seq<CompletePart>, owner: string, leaseExpires: int,
                                                      now: int, i: nat, j: nat)
    requires var s := Exec(limits, events);
             && Authorized(s.db, identity) && identity.uploadId in s.history
             && var h := s.history[identity.uploadId];
                i < |h| && h[i].LeaseGranted? && j < |h| && h[j].CompletedBy?
    ensures var s := Exec(limits, events);
            var h := s.history[identity.uploadId];
            AcquireCompletion(s.db, identity, fingerprint, request, owner, leaseExpires, now) ==
            if fingerprint == h[i].fingerprint then Ok((s.db, Replayed(h[j].result))) else Err(CompletionConflict)
  {
    hide Exec, SelectParts, CurrentParts;
    var s, id := Exec(limits, events), identity.uploadId;
    AfterAnyLease(limits, events, id, i);
    CompletedAtMostOnce(limits, events, id, j);
  }

  /** In every run all three levels of accounting balance and no limit is exceeded. */
  lemma {:induction false} NoLimitExceeded(limits: Limits, events: seq<Event>)
    ensures var db := Exec(limits, events).db;
            && (forall id :: id in db.uploads ==> UploadBalanced(db, id))
            && (forall scope :: QuotaBalanced(db, scope))
            && (forall key :: ReleaseArtifact(db, key).Ok?)
  {
    EveryRunHolds(limits, events);
    forall key ensures ReleaseArtifact(Exec(limits, events).db, key).Ok? {
      ReleaseSucceeds(Exec(limits, events).db, key);
    }
  }
}
