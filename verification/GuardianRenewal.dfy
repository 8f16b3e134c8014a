/**
  The guardian's explicit session commands: an idempotency journal, one owned execution, an execution
  service that may fail before or after committing, and an attestation file that is published behind a
  last-moment check.

  The adapter, the session lifecycle and the attestation store are one class here, because the store's
  pre-publication hook reaches back into the adapter. Everything the outside world decides (clock readings,
  I/O faults, how a transition fails) is a nondeterministic choice.
 */
module GuardianRenewal {
  import opened Wrappers

  /** Seconds. */
  type Instant = int

  const TTL: int := 900

  datatype ExecutionStatus = NotStarted | InProgress | Completed | Interrupted | Unconfirmed

  datatype Execution = Execution(id: string, status: ExecutionStatus)

  datatype SessionState = Active | Inactive | UnknownState

  datatype Evidence = Evidence(state: SessionState, observedAt: Instant, sessionId: string)

  datatype Kind = Start | Renew | Stop | Transition

  datatype Fingerprint = Fingerprint(kind: Kind, executionId: string, semantic: string)

  /** What a response says about the execution transition. */
  datatype Commit = NotAttempted | Committed | NotCommitted | UnknownCommit

  datatype Publication = NotPublished | PublicationFailed | UnknownPublication

  datatype Ownership = Retained | Lost | UnknownOwnership

  datatype Body =
    | Transitioned(destination: Execution)
    | Confirmed(executionId: string, confirmedAt: Instant, serverTime: Instant, replayed: bool)
    | Refused(code: string, executionId: string, serverTime: Instant,
              commit: Commit, publication: Publication, ownership: Ownership)

  datatype Response = Response(status: nat, body: Body)

  /** A command as the routes hand it over: only a renewal has no destination. */
  datatype Request = Request(kind: Kind, executionId: string, key: string, instance: string, semantic: string,
                             receipt: Instant, destination: Option<Execution>)

  predicate WellFormed(q: Request) {
    q.kind != Renew ==> q.destination.Some?
  }

  datatype Cause = StaleOrConflict | ExecutionMissing | OtherCause

  /** The exceptions a command distinguishes. */
  datatype Fault = Rejection(code: string, status: nat) | TransitionRejected | ApplicationFault(cause: Cause)
      | OtherFault

  datatype Attempt<+T> = Done(value: T) | Raised(fault: Fault)

  /** One call of the service's transition: for which key, to what, and whether it took effect. */
  datatype Effect = Effect(key: string, destination: Execution, committed: bool)

  /** What the store runs just before it replaces the attestation file. */
  datatype Check = NoCheck | ClockCheck(receipt: Instant) | OwnerCheck(executionId: string, receipt: Instant)

  predicate AllowedTransition(source: ExecutionStatus, destination: ExecutionStatus) {
    (source, destination) in {
      (NotStarted, InProgress), (NotStarted, Unconfirmed),
      (InProgress, Completed), (InProgress, Interrupted), (InProgress, Unconfirmed)}
  }

  predicate Fresh(e: Evidence, now: Instant) {
    0 <= now - e.observedAt <= TTL
  }

  /** The effects of one key. */
  ghost predicate NoEffect(effects: seq<Effect>, key: string) {
    forall i :: 0 <= i < |effects| ==> effects[i].key != key
  }

  ghost predicate CommittedEffect(effects: seq<Effect>, key: string) {
    exists i :: 0 <= i < |effects| && effects[i].key == key && effects[i].committed
  }

  /** A response never claims more, or less, than the service did for its key. */
  ghost predicate Truthful(r: Response, kind: Kind, effects: seq<Effect>, key: string) {
    match r.body
    case Transitioned(_) => kind != Renew && CommittedEffect(effects, key)
    case Confirmed(_, _, _, _) => kind == Renew && NoEffect(effects, key)
    case Refused(_, _, _, commit, _, _) =>
      && r.status != 200
      && (commit == Committed ==> CommittedEffect(effects, key))
      && (commit == NotAttempted ==> NoEffect(effects, key))
      && (commit == NotCommitted ==> !CommittedEffect(effects, key))
  }

  /** Every effect has its own journaled key, and every journaled result is truthful about its key. */
  ghost predicate JournalOk(capacity: nat, journal: map<string, (Fingerprint, Response)>, effects: seq<Effect>) {
    && |journal| <= capacity
    && (forall i :: 0 <= i < |effects| ==> effects[i].key in journal)
    && (forall i, j :: 0 <= i < j < |effects| ==> effects[i].key != effects[j].key)
    && (forall key :: key in journal ==> Truthful(journal[key].1, journal[key].0.kind, effects, key))
  }

  /** An effect under a new key leaves what is true of every other key as it was. */
  lemma JournalGrows(capacity: nat, journal: map<string, (Fingerprint, Response)>, past: seq<Effect>,
                     effects: seq<Effect>, key: string, fingerprint: Fingerprint, r: Response)
    requires JournalOk(capacity, journal, past) && key !in journal && |journal| < capacity
    requires effects == past || exists d, committed :: effects == past + [Effect(key, d, committed)]
    requires Truthful(r, fingerprint.kind, effects, key)
    ensures JournalOk(capacity, journal[key := (fingerprint, r)], effects)
  {
    forall k | k in journal ensures Truthful(journal[k].1, journal[k].0.kind, effects, k) {
      assert Truthful(journal[k].1, journal[k].0.kind, past, k);
      SameForOtherKeys(past, effects, key, k);
    }
  }

  lemma SameForOtherKeys(past: seq<Effect>, effects: seq<Effect>, key: string, k: string)
    requires k != key
    requires effects == past || exists d, committed :: effects == past + [Effect(key, d, committed)]
    ensures NoEffect(past, k) <==> NoEffect(effects, k)
    ensures CommittedEffect(past, k) <==> CommittedEffect(effects, k)
  {
    assert forall i :: 0 <= i < |past| ==> effects[i] == past[i];
    if CommittedEffect(past, k) {
      var i :| 0 <= i < |past| && past[i].key == k && past[i].committed;
      assert effects[i] == past[i];
    }
    if CommittedEffect(effects, k) {
      var i :| 0 <= i < |effects| && effects[i].key == k && effects[i].committed;
      assert past[i] == effects[i];
    }
    assert NoEffect(effects, k) ==> forall i :: 0 <= i < |past| ==> past[i].key == effects[i].key != k;
  }

  class GuardianAdapter {
    const capacity: nat
    const ownerInstanceId: string
    var journal: map<string, (Fingerprint, Response)>
    var lastClock: Option<Instant>
    var publicationCheck: Check
    // the session lifecycle
    var owner: Option<string>
    // the attestation file; None when there is none or it does not decode
    var file: Option<Evidence>
    // the execution service
    var executions: map<string, ExecutionStatus>
    ghost var effects: seq<Effect>

    /** An owned execution is in progress and attested as active. */
    ghost predicate Owned()
      reads `owner, `file, `executions
    {
      owner.Some? ==>
        && owner.value in executions && executions[owner.value] == InProgress
        && file.Some? && file.value.state == Active && file.value.sessionId == owner.value
    }

    ghost predicate Journaled()
      reads `journal, `effects
    {
      JournalOk(capacity, journal, effects)
    }

    ghost predicate Valid()
      reads this
    {
      Owned() && Journaled() && publicationCheck == NoCheck
    }

    constructor (capacity: nat, ownerInstanceId: string, executions: map<string, ExecutionStatus>,
                 file: Option<Evidence>)
      ensures Valid() && owner == None && journal == map[] && effects == []
      ensures this.executions == executions && this.file == file
    {
      this.capacity, this.ownerInstanceId := capacity, ownerInstanceId;
      this.executions, this.file := executions, file;
      journal, lastClock, publicationCheck, owner, effects := map[], None, NoCheck, None, [];
    }

    // ---- the outside world ----

    /** `now`: the clock may be unusable. */
    method Now() returns (r: Attempt<Instant>)
      ensures r.Raised? ==> r.fault == Rejection("guardian_clock_unavailable", 503)
    {
      var reading: int := *;
      var usable: bool := *;
      r := if usable then Done(reading) else Raised(Rejection("guardian_clock_unavailable", 503));
    }

    /** The service's `load_execution`: an execution, none, or a failure. */
    method LoadExecution(id: string) returns (r: Attempt<Option<Execution>>)
      ensures r.Done? && r.value.Some? && r.value.value.id == id ==>
                id in executions && r.value.value.status == executions[id]
      ensures r.Done? && r.value.None? ==> id !in executions
      ensures r.Raised? ==> r.fault.ApplicationFault? || r.fault.OtherFault?
    {
      var choice: int := *;
      if choice == 0 {
        var cause: Cause := *;
        r := Raised(ApplicationFault(cause));
      } else if choice == 1 {
        r := Raised(OtherFault);
      } else if choice == 2 {
        var other: Execution := *;
        r := if other.id != id then Done(Some(other)) else Raised(OtherFault);
      } else {
        r := if id in executions then Done(Some(Execution(id, executions[id]))) else Done(None);
      }
    }

    /** The service's `transition_execution`: it may fail before or after its write took effect. */
    method TransitionExecution(d: Execution, ghost key: string) returns (r: Attempt<Execution>)
      modifies `executions, `effects
      ensures exists committed :: effects == old(effects) + [Effect(key, d, committed)]
      ensures var committed := effects[|old(effects)|].committed;
              && executions == (if committed then old(executions)[d.id := d.status] else old(executions))
              && (r.Done? ==> committed && r.value == d)
              && (committed ==> d.id in old(executions) && AllowedTransition(old(executions)[d.id], d.status))
              && (r == Raised(TransitionRejected) ==> !committed)
              && (r == Raised(ApplicationFault(StaleOrConflict)) ==> !committed)
      ensures r.Raised? ==> !r.fault.Rejection?
    {
      var choice: int := *;
      var committed := false;
      if d.id !in executions {
        r := Raised(ApplicationFault(ExecutionMissing));
      } else if !AllowedTransition(executions[d.id], d.status) {
        r := Raised(TransitionRejected);
      } else if choice == 0 {
        r := Raised(ApplicationFault(StaleOrConflict));
      } else if choice == 1 {
        r := Raised(ApplicationFault(OtherCause));
      } else if choice == 2 {
        r := Raised(OtherFault);
      } else {
        committed := true;
        executions := executions[d.id := d.status];
        r := if choice == 3 then Raised(OtherFault)
             else if choice == 4 then Raised(ApplicationFault(OtherCause)) else Done(d);
      }
      effects := effects + [Effect(key, d, committed)];
    }

    /** `GuardianSessionStore.read`: fresh, known evidence, or nothing. */
    method ReadEvidence(now: Instant) returns (r: Attempt<Option<Evidence>>)
      ensures r.Done? && r.value.Some? ==> r.value == file && Fresh(file.value, now) && file.value.state != UnknownState
      ensures r.Raised? ==> r.fault == OtherFault
    {
      var choice: int := *;
      if choice == 0 {
        r := Raised(OtherFault);
      } else if choice == 1 || file.None? || !Fresh(file.value, now) || file.value.state == UnknownState {
        r := Done(None);
      } else {
        r := Done(file);
      }
    }

    // ---- clock and eligibility ----

    /** The command's clock: never behind the receipt or an earlier reading, and within the confirmation's life. */
    method TrustedNow(receipt: Instant) returns (r: Attempt<Instant>)
      modifies `lastClock
      ensures old(lastClock).Some? ==> lastClock.Some? && old(lastClock).value <= lastClock.value
      ensures r.Done? ==> lastClock == Some(r.value) && 0 <= r.value - receipt <= TTL
      ensures r.Raised? ==> r.fault.Rejection? && r.fault.status != 200
    {
      var now := Now();
      if now.Raised? {
        return now;
      }
      if now.value < receipt || (lastClock.Some? && now.value < lastClock.value) {
        return Raised(Rejection("guardian_clock_unavailable", 503));
      }
      lastClock := Some(now.value);
      if now.value - receipt > TTL {
        return Raised(Rejection("guardian_confirmation_expired", 409));
      }
      r := now;
    }

    /** `_execution`: the exact execution, or a rejection. */
    method RequireExecution(id: string) returns (r: Attempt<Execution>)
      ensures r.Done? ==> r.value.id == id && id in executions && executions[id] == r.value.status
      ensures r.Raised? ==> r.fault.Rejection? && r.fault.status != 200
    {
      var loaded := LoadExecution(id);
      if loaded.Raised? {
        return Raised(Rejection("guardian_state_unavailable", 503));
      }
      if loaded.value.None? {
        return Raised(Rejection("execution_not_found", 404));
      }
      if loaded.value.value.id != id {
        return Raised(Rejection("guardian_state_unavailable", 503));
      }
      r := Done(loaded.value.value);
    }

    /** `_eligible`: owner, execution in progress, and an active attestation that is fresh at `now`. */
    method Eligible(id: string, now: Instant, revoke: bool) returns (r: Attempt<Evidence>)
      modifies `owner
      ensures r.Done? ==>
                && owner == old(owner) == Some(id) && id in executions && executions[id] == InProgress
                && file == Some(r.value) && r.value.state == Active && r.value.sessionId == id && Fresh(r.value, now)
      ensures r.Raised? ==> r.fault.Rejection? && r.fault.status != 200
      ensures owner == old(owner) || (revoke && owner == None)
    {
      var execution := RequireExecution(id);
      if execution.Raised? {
        return Raised(execution.fault);
      }
      if owner != Some(id) {
        return Raised(Rejection("guardian_session_not_owned", 409));
      }
      var code := "";
      if execution.value.status != InProgress {
        code := "guardian_execution_not_in_progress";
      }
      var evidence := ReadEvidence(now);
      if evidence.Raised? {
        return Raised(Rejection("guardian_state_unavailable", 503));
      }
      if code == "" && (evidence.value.None? || evidence.value.value.state != Active
                        || evidence.value.value.sessionId != id) {
        code := "guardian_session_attestation_lost";
      }
      if code != "" {
        if revoke {
          owner := None;
        }
        return Raised(Rejection(code, 409));
      }
      r := Done(evidence.value.value);
    }

    /** The hook the store runs just before it replaces the file. */
    method RunCheck() returns (r: Attempt<()>)
      modifies `owner, `lastClock
      ensures owner == old(owner) || owner == None
      ensures old(lastClock).Some? ==> lastClock.Some? && old(lastClock).value <= lastClock.value
      ensures r.Raised? ==> r.fault.Rejection? && r.fault.status != 200
      ensures r.Done? ==> owner == old(owner)
      ensures r.Done? && !publicationCheck.NoCheck? ==>
                lastClock.Some? && 0 <= lastClock.value - publicationCheck.receipt <= TTL
      ensures r.Done? && publicationCheck.OwnerCheck? ==>
                var id := publicationCheck.executionId;
                owner == Some(id) && id in executions && executions[id] == InProgress
    {
      if publicationCheck.NoCheck? {
        return Done(());
      }
      var now := TrustedNow(publicationCheck.receipt);
      if now.Raised? {
        return Raised(now.fault);
      }
      if publicationCheck.OwnerCheck? {
        var evidence := Eligible(publicationCheck.executionId, now.value, true);
        if evidence.Raised? {
          return Raised(evidence.fault);
        }
      }
      r := Done(());
    }

    // ---- the attestation file and the session lifecycle ----

    /** `GuardianSessionStore.write`: temporary file, check, atomic replace, removal of the temporary file. */
    method WriteEvidence(e: Evidence) returns (r: Attempt<()>)
      modifies `file, `owner, `lastClock
      ensures owner == old(owner) || owner == None
      ensures old(lastClock).Some? ==> lastClock.Some? && old(lastClock).value <= lastClock.value
      ensures r.Done? ==> file == Some(e) && owner == old(owner)
      ensures r.Done? && !publicationCheck.NoCheck? ==>
                lastClock.Some? && 0 <= lastClock.value - publicationCheck.receipt <= TTL
      ensures r.Done? && publicationCheck.OwnerCheck? ==>
                var id := publicationCheck.executionId;
                owner == Some(id) && id in executions && executions[id] == InProgress
      ensures r.Raised? ==>
                (r.fault == OtherFault || (r.fault.Rejection? && r.fault.status != 200 && file == old(file)))
    {
      var temporaryWritten: bool, replaced: bool, temporaryRemoved: bool := *, *, *;
      if !temporaryWritten {
        return Raised(OtherFault);
      }
      var checked := RunCheck();
      if checked.Raised? {
        return checked;
      }
      if !replaced {
        return Raised(OtherFault);
      }
      file := Some(e);
      if !temporaryRemoved {
        return Raised(OtherFault);
      }
      r := Done(());
    }

    /** `_write`: any failed publication gives up ownership; an I/O failure also removes the old evidence. */
    method Attest(state: SessionState, id: string, observedAt: Instant) returns (r: Attempt<()>)
      modifies `file, `owner, `lastClock
      ensures old(lastClock).Some? ==> lastClock.Some? && old(lastClock).value <= lastClock.value
      ensures r.Done? ==> file == Some(Evidence(state, observedAt, id)) && owner == old(owner)
      ensures r.Done? && !publicationCheck.NoCheck? ==>
                lastClock.Some? && 0 <= lastClock.value - publicationCheck.receipt <= TTL
      ensures r.Raised? ==> owner == None && (r.fault == OtherFault || (r.fault.Rejection? && r.fault.status != 200))
    {
      r := WriteEvidence(Evidence(state, observedAt, id));
      if r.Raised? {
        owner := None;
        if !r.fault.Rejection? {
          var unlinked: bool := *;
          if unlinked {
            file := None;
          }
        }
      }
    }

    /** `lifecycle.start`; `tracked` says that the transition itself returned. */
    method LifecycleStart(d: Execution, observedAt: Instant, ghost key: string) returns (r: Attempt<()>, tracked: bool)
      requires Owned()
      modifies `file, `owner, `lastClock, `executions, `effects
      ensures Owned()
      ensures old(lastClock).Some? ==> lastClock.Some? && old(lastClock).value <= lastClock.value
      ensures effects == old(effects) || exists committed :: effects == old(effects) + [Effect(key, d, committed)]
      ensures tracked ==> effects == old(effects) + [Effect(key, d, true)]
      ensures effects != old(effects) ==> old(owner) == None
      ensures r.Done? ==> tracked && owner == Some(d.id) && file == Some(Evidence(Active, observedAt, d.id))
      ensures r.Raised? ==> owner == None || owner == old(owner)
      ensures r.Raised? && !tracked ==> !r.fault.Rejection?
      ensures r.Raised? && tracked ==> r.fault == OtherFault || (r.fault.Rejection? && r.fault.status != 200)
      ensures r == Raised(TransitionRejected) || r == Raised(ApplicationFault(StaleOrConflict)) ==>
                effects == old(effects) + [Effect(key, d, false)]
    {
      tracked := false;
      if d.status != InProgress {
        return Raised(OtherFault), false;
      }
      if owner.Some? {
        return Raised(OtherFault), false;
      }
      var result := TransitionExecution(d, key);
      if result.Raised? {
        return Raised(result.fault), false;
      }
      tracked := true;
      r := Attest(Active, result.value.id, observedAt);
      if r.Done? {
        owner := Some(result.value.id);
      }
    }

    /** `lifecycle.renew`: only for the owner, over a readable active attestation of an execution in progress. */
    method LifecycleRenew(id: string, observedAt: Instant) returns (r: Attempt<()>)
      requires Owned() && publicationCheck == OwnerCheck(id, observedAt)
      modifies `file, `owner, `lastClock
      ensures Owned() && (owner == old(owner) || owner == None)
      ensures old(lastClock).Some? ==> lastClock.Some? && old(lastClock).value <= lastClock.value
      ensures r.Done? ==> owner == old(owner) == Some(id) && file == Some(Evidence(Active, observedAt, id))
      ensures r.Done? ==> lastClock.Some? && 0 <= lastClock.value - observedAt <= TTL
      ensures r.Raised? ==> r.fault != TransitionRejected && (r.fault.Rejection? ==> r.fault.status != 200)
    {
      if owner != Some(id) {
        return Raised(OtherFault);
      }
      var previous := ReadEvidence(observedAt);
      if previous.Raised? {
        return Raised(previous.fault);
      }
      var execution := LoadExecution(id);
      if execution.Raised? {
        return Raised(execution.fault);
      }
      if previous.value.None? || previous.value.value.state != Active || previous.value.value.sessionId != id
         || execution.value.None? || execution.value.value.status != InProgress {
        owner := None;
        return Raised(OtherFault);
      }
      r := Attest(Active, id, observedAt);
    }

    /** `lifecycle.stop`: ownership ends with the committed transition, before the attestation is written. */
    method LifecycleStop(d: Execution, observedAt: Instant, ghost key: string) returns (r: Attempt<()>, tracked: bool)
      requires Owned()
      modifies `file, `owner, `lastClock, `executions, `effects
      ensures old(lastClock).Some? ==> lastClock.Some? && old(lastClock).value <= lastClock.value
      ensures effects == old(effects) || exists committed :: effects == old(effects) + [Effect(key, d, committed)]
      ensures effects != old(effects) ==> old(owner) == None || old(owner) == Some(d.id)
      ensures tracked ==> effects == old(effects) + [Effect(key, d, true)] && owner == None
      ensures !tracked ==> owner == old(owner) && r.Raised? && !r.fault.Rejection?
      ensures r.Done? ==> tracked && file == Some(Evidence(Inactive, observedAt, d.id))
      ensures r.Raised? && tracked ==> r.fault == OtherFault || (r.fault.Rejection? && r.fault.status != 200)
      ensures r == Raised(TransitionRejected) || r == Raised(ApplicationFault(StaleOrConflict)) ==>
                Owned() && effects == old(effects) + [Effect(key, d, false)]
      ensures owner == None ==> Owned()
    {
      tracked := false;
      if d.status != Completed && d.status != Interrupted {
        return Raised(OtherFault), false;
      }
      if owner != None && owner != Some(d.id) {
        return Raised(OtherFault), false;
      }
      var result := TransitionExecution(d, key);
      if result.Raised? {
        return Raised(result.fault), false;
      }
      tracked := true;
      owner := None;
      r := Attest(Inactive, result.value.id, observedAt);
    }

    // ---- commands ----

    /** `error`: a refusal, with the ownership of this moment unless the caller knows better. */
    method Error(code: string, executionId: string, status: nat, commit: Commit, publication: Publication,
                 ownership: Option<Ownership>)
      returns (r: Response)
      requires status != 200
      ensures r.status == status && r.body.Refused? && r.body.code == code && r.body.executionId == executionId
      ensures r.body.commit == commit && r.body.publication == publication
      ensures r.body.ownership == if ownership.Some? then ownership.value else if owner.Some? then Retained else Lost
    {
      var now := Now();
      var wall: int := *;
      var serverTime := if now.Done? then now.value else wall;
      r := Response(status, Refused(code, executionId, serverTime, commit, publication,
        if ownership.Some? then ownership.value else if owner.Some? then Retained else Lost));
    }

    /** The `except` clauses of a command. */
    method Settle(fault: Fault, executionId: string, commit: Commit, publication: Publication) returns (r: Response)
      requires fault.Rejection? ==> fault.status != 200
      modifies `owner
      ensures r.status != 200 && r.body.Refused?
      ensures r.body.commit == if fault == TransitionRejected || fault == ApplicationFault(StaleOrConflict)
              then NotCommitted else commit
      ensures owner == old(owner) || owner == None
      ensures (old(owner) == Some(executionId) && commit == UnknownCommit && publication == NotPublished
               && !fault.Rejection? && r.body.commit == UnknownCommit) ==> owner == None
    {
      match fault
      case Rejection(code, status) =>
        if code in {"guardian_state_unavailable", "guardian_clock_unavailable", "execution_not_found"}
           && owner == Some(executionId) {
          owner := None;
        }
        r := Error(code, executionId, status, commit, NotPublished, None);
      case TransitionRejected =>
        r := Error("guardian_execution_transition_rejected", executionId, 409, NotCommitted, NotPublished, None);
      case ApplicationFault(cause) =>
        var settled := commit;
        if cause == StaleOrConflict {
          settled := NotCommitted;
        } else if commit == UnknownCommit && owner == Some(executionId) {
          owner := None;
        }
        if cause == ExecutionMissing {
          r := Error("execution_not_found", executionId, 404, settled, NotPublished, None);
        } else {
          r := Error("guardian_execution_persistence_failed", executionId, 503, settled, NotPublished, None);
        }
      case OtherFault =>
        if publication == UnknownPublication {
          r := Error("guardian_attestation_publication_failed", executionId, 503, commit, PublicationFailed, None);
        } else if commit == UnknownCommit {
          if owner == Some(executionId) {
            owner := None;
          }
          r := Error("guardian_execution_persistence_failed", executionId, 503, UnknownCommit, NotPublished, None);
        } else {
          r := Error("guardian_command_failed", executionId, 500, commit, UnknownPublication, Some(UnknownOwnership));
        }
    }

    /** What the body of a command leaves behind for its `except` clauses. */
    ghost predicate Settleable(fault: Fault, executionId: string, commit: Commit, publication: Publication, key: string)
      reads `owner, `file, `executions, `effects
    {
      && (fault.Rejection? ==> fault.status != 200)
      && (commit == Committed ==> CommittedEffect(effects, key))
      && (commit == NotAttempted ==> NoEffect(effects, key))
      && commit != NotCommitted
      && (fault == TransitionRejected || fault == ApplicationFault(StaleOrConflict) ==>
          !CommittedEffect(effects, key) && Owned())
      && (Owned() || (owner == Some(executionId) && commit == UnknownCommit && publication == NotPublished
                      && !fault.Rejection?))
    }

    lemma OneEffect(before: seq<Effect>, key: string, d: Execution, committed: bool)
      requires NoEffect(before, key)
      ensures CommittedEffect(before + [Effect(key, d, committed)], key) <==> committed
    {
      var after := before + [Effect(key, d, committed)];
      assert after[|before|] == Effect(key, d, committed);
      assert forall i :: 0 <= i < |before| ==> after[i] == before[i];
    }

    /** The `transition` command: refused while any execution is owned. */
    method RunTransition(executionId: string, d: Execution, ghost key: string)
      returns (r: Attempt<Response>, commit: Commit, publication: Publication)
      requires Owned() && NoEffect(effects, key)
      modifies `executions, `effects
      ensures effects == old(effects) || exists committed :: effects == old(effects) + [Effect(key, d, committed)]
      ensures effects != old(effects) ==> owner == None
      ensures r.Done? ==> Owned() && r.value == Response(200, Transitioned(d)) && CommittedEffect(effects, key)
      ensures r.Raised? ==> Settleable(r.fault, executionId, commit, publication, key)
    {
      commit, publication := NotAttempted, NotPublished;
      if owner != None {
        return Raised(Rejection("guardian_session_not_owned", 409)), commit, publication;
      }
      commit := UnknownCommit;
      ghost var before := effects;
      var result := TransitionExecution(d, key);
      OneEffect(before, key, d, effects[|before|].committed);
      if result.Raised? {
        return Raised(result.fault), commit, publication;
      }
      r := Done(Response(200, Transitioned(result.value)));
    }

    /** The `renew` command, once the clock and the execution have been read. */
    method RunRenew(executionId: string, receipt: Instant, now: Instant, ghost key: string)
      returns (r: Attempt<Response>, commit: Commit, publication: Publication)
      requires Owned() && NoEffect(effects, key)
      modifies `file, `owner, `lastClock, `publicationCheck
      ensures Owned()
      ensures owner == old(owner) || owner == None
      ensures old(lastClock).Some? ==> lastClock.Some? && old(lastClock).value <= lastClock.value
      ensures r.Done? ==>
                && r.value.status == 200 && r.value.body.Confirmed? && r.value.body.executionId == executionId
                && r.value.body.confirmedAt == receipt && !r.value.body.replayed
                && owner == Some(executionId) && file == Some(Evidence(Active, receipt, executionId))
                && old(file).Some? && old(file).value.observedAt <= receipt
                && lastClock.Some? && 0 <= lastClock.value - receipt <= TTL
      ensures r.Raised? ==> Settleable(r.fault, executionId, commit, publication, key) && r.fault != TransitionRejected
      ensures commit == NotAttempted
    {
      commit, publication := NotAttempted, NotPublished;
      var evidence := Eligible(executionId, now, true);
      if evidence.Raised? {
        return Raised(evidence.fault), commit, publication;
      }
      if receipt < evidence.value.observedAt {
        return Raised(Rejection("guardian_confirmation_out_of_order", 409)), commit, publication;
      }
      var atReceipt := Eligible(executionId, receipt, true);
      if atReceipt.Raised? {
        return Raised(atReceipt.fault), commit, publication;
      }
      publicationCheck := OwnerCheck(executionId, receipt);
      publication := UnknownPublication;
      NoCommittedEffect(effects, key);
      var renewed := LifecycleRenew(executionId, receipt);
      if renewed.Raised? {
        return Raised(renewed.fault), commit, publication;
      }
      r := Done(Response(200, Confirmed(executionId, receipt, lastClock.value, false)));
    }

    lemma NoCommittedEffect(all: seq<Effect>, key: string)
      requires NoEffect(all, key)
      ensures !CommittedEffect(all, key)
    {
    }

    /** The `start` and `stop` commands, once the clock and the execution have been read. */
    method RunSession(kind: Kind, executionId: string, receipt: Instant, now: Instant, d: Execution, ghost key: string)
      returns (r: Attempt<Response>, commit: Commit, publication: Publication)
      requires kind == Start || kind == Stop
      requires Owned() && NoEffect(effects, key)
      modifies `file, `owner, `lastClock, `executions, `effects, `publicationCheck
      ensures old(lastClock).Some? ==> lastClock.Some? && old(lastClock).value <= lastClock.value
      ensures effects == old(effects) || exists committed :: effects == old(effects) + [Effect(key, d, committed)]
      ensures effects != old(effects) ==> old(owner) == None || (kind == Stop && old(owner) == Some(d.id))
      ensures r.Done? ==>
                && Owned() && r.value == Response(200, Transitioned(d)) && CommittedEffect(effects, key)
                && (kind == Start ==> owner == Some(d.id) && file == Some(Evidence(Active, receipt, d.id)))
                && (kind == Stop ==> owner == None && file == Some(Evidence(Inactive, receipt, d.id)))
      ensures r.Raised? ==> Settleable(r.fault, executionId, commit, publication, key)
      ensures r.Raised? ==> owner == None || owner == old(owner)
      ensures r.Raised? && effects != old(effects) && owner.Some? ==>
                owner == Some(executionId) && commit == UnknownCommit && publication == NotPublished
                    && !r.fault.Rejection?
    {
      commit, publication := NotAttempted, NotPublished;
      var previous := ReadEvidence(now);
      if previous.Raised? {
        return Raised(previous.fault), commit, publication;
      }
      if previous.value.Some? && receipt < previous.value.value.observedAt {
        return Raised(Rejection("guardian_confirmation_out_of_order", 409)), commit, publication;
      }
      if owner != None && owner != Some(executionId) {
        return Raised(Rejection("guardian_session_not_owned", 409)), commit, publication;
      }
      if kind == Start && owner != None {
        return Raised(Rejection("guardian_session_already_owned", 409)), commit, publication;
      }
      publicationCheck := ClockCheck(receipt);
      commit := UnknownCommit;
      ghost var before := effects;
      var run, tracked;
      if kind == Start {
        run, tracked := LifecycleStart(d, receipt, key);
      } else {
        run, tracked := LifecycleStop(d, receipt, key);
      }
      NoCommittedEffect(before, key);
      if effects != before {
        OneEffect(before, key, d, effects[|before|].committed);
      }
      if tracked {
        commit, publication := Committed, UnknownPublication;
      }
      if run.Raised? {
        return Raised(run.fault), commit, publication;
      }
      r := Done(Response(200, Transitioned(d)));
    }

    /** Dispatch after the reservation: read the clock and the execution, then run the command. */
    method Run(kind: Kind, executionId: string, receipt: Instant, destination: Option<Execution>, ghost key: string)
      returns (r: Attempt<Response>, commit: Commit, publication: Publication)
      requires kind != Renew ==> destination.Some?
      requires Owned() && NoEffect(effects, key)
      modifies `file, `owner, `lastClock, `executions, `effects, `publicationCheck
      ensures old(lastClock).Some? ==> lastClock.Some? && old(lastClock).value <= lastClock.value
      ensures effects == old(effects)
              || (kind != Renew && exists committed ::
                  effects == old(effects) + [Effect(key, destination.value, committed)])
      ensures effects != old(effects) ==>
                old(owner) == None || (kind == Stop && old(owner) == Some(destination.value.id))
      ensures r.Done? ==> Owned() && Truthful(r.value, kind, effects, key)
                          && Accomplished(r.value, kind, executionId, receipt, destination)
      ensures r.Done? && kind == Renew ==> old(file).Some? && old(file).value.observedAt <= receipt
      ensures r.Raised? ==> Settleable(r.fault, executionId, commit, publication, key)
      ensures r.Raised? ==> owner == None || owner == old(owner)
      ensures r.Raised? && effects != old(effects) && owner.Some? ==>
                owner == Some(executionId) && commit == UnknownCommit && publication == NotPublished
                    && !r.fault.Rejection?
    {
      commit, publication := NotAttempted, NotPublished;
      NoCommittedEffect(effects, key);
      var now := TrustedNow(receipt);
      if now.Raised? {
        return Raised(now.fault), commit, publication;
      }
      var execution := RequireExecution(executionId);
      if execution.Raised? {
        return Raised(execution.fault), commit, publication;
      }
      match kind
      case Transition =>
        r, commit, publication := RunTransition(executionId, destination.value, key);
      case Renew =>
        r, commit, publication := RunRenew(executionId, receipt, now.value, key);
      case _ =>
        r, commit, publication := RunSession(kind, executionId, receipt, now.value, destination.value, key);
    }

    /** What a successful command has established. */
    ghost predicate Accomplished(r: Response, kind: Kind, executionId: string, receipt: Instant,
                                 destination: Option<Execution>)
      requires kind != Renew ==> destination.Some?
      reads `owner, `file, `lastClock
    {
      && r.status == 200
      && match kind
         case Start => r.body == Transitioned(destination.value) && owner == Some(destination.value.id)
                       && file == Some(Evidence(Active, receipt, destination.value.id))
         case Stop => r.body == Transitioned(destination.value) && owner == None
                      && file == Some(Evidence(Inactive, receipt, destination.value.id))
         case Transition => r.body == Transitioned(destination.value)
         case Renew => r.body.Confirmed? && r.body.executionId == executionId && r.body.confirmedAt == receipt
                       && owner == Some(executionId) && file == Some(Evidence(Active, receipt, executionId))
                       && lastClock.Some? && 0 <= lastClock.value - receipt <= TTL
    }

    /**
      A replayed response: the journaled one, up to the replay mark and the server time of a renewal, or a clock error.
     */
    static predicate Replays(r: Response, kind: Kind, journaled: Response) {
      || r == journaled
      || (kind == Renew && journaled.status == 200 && journaled.body.Confirmed?
          && r.status == 200 && r.body.Confirmed? && r.body.replayed
          && r.body.(replayed := journaled.body.replayed, serverTime := journaled.body.serverTime) == journaled.body)
      || (kind == Renew && journaled.status == 200 && r.status == 503 && r.body.Refused?
          && r.body.code == "guardian_clock_unavailable" && r.body.commit == NotAttempted)
    }

    /** Answer a key that the journal already holds. */
    method Replay(kind: Kind, executionId: string, key: string, semantic: string) returns (r: Response)
      requires Journaled() && key in journal
      ensures journal[key].0 == Fingerprint(kind, executionId, semantic) ==> Replays(r, kind, journal[key].1)
      ensures journal[key].0 != Fingerprint(kind, executionId, semantic) ==>
                r.status == 409 && r.body.Refused? && r.body.code == "guardian_idempotency_conflict"
                    && r.body.commit == NotAttempted
    {
      var (previous, result) := journal[key];
      if previous != Fingerprint(kind, executionId, semantic) {
        r := Error("guardian_idempotency_conflict", executionId, 409, NotAttempted, NotPublished, None);
        return;
      }
      assert Truthful(result, previous.kind, effects, key);
      if result.status == 200 && kind == Renew {
        var now := Now();
        if now.Raised? {
          r := Error("guardian_clock_unavailable", executionId, 503, NotAttempted, NotPublished, None);
          return;
        }
        return result.(body := result.body.(replayed := true, serverTime := now.value));
      }
      r := result;
    }

    /** The command is new: right instance, unused key, room in the journal. */
    ghost predicate Admitted(key: string, instance: string)
      reads `journal
    {
      instance == ownerInstanceId && key !in journal && |journal| < capacity
    }

    /** Run an admitted command and turn its exceptions into a response. */
    method Execute(kind: Kind, executionId: string, receipt: Instant, destination: Option<Execution>, ghost key: string)
      returns (r: Response)
      requires kind != Renew ==> destination.Some?
      requires Owned() && NoEffect(effects, key) && publicationCheck == NoCheck
      modifies `file, `owner, `lastClock, `executions, `effects, `publicationCheck
      ensures Owned() && publicationCheck == NoCheck
      ensures Truthful(r, kind, effects, key)
      ensures r.status == 200 ==> Accomplished(r, kind, executionId, receipt, destination)
      ensures r.status == 200 && kind == Renew ==> old(file).Some? && old(file).value.observedAt <= receipt
      ensures effects == old(effects)
              || (kind != Renew && exists committed ::
                  effects == old(effects) + [Effect(key, destination.value, committed)])
      ensures effects != old(effects) ==>
                old(owner) == None || (kind == Stop && old(owner) == Some(destination.value.id))
      ensures effects != old(effects) && old(owner).Some? && owner.Some? ==>
                owner == old(owner) && r.body.Refused? && r.body.commit == NotCommitted
                    && !CommittedEffect(effects, key)
      ensures old(lastClock).Some? ==> lastClock.Some? && old(lastClock).value <= lastClock.value
    {
      hide CommittedEffect, NoEffect;
      var attempt, commit, publication := Run(kind, executionId, receipt, destination, key);
      if attempt.Done? {
        r := attempt.value;
      } else {
        r := Settle(attempt.fault, executionId, commit, publication);
        SettledTruth(r, kind, key);
      }
      publicationCheck := NoCheck;
    }

    /** Reserve the key before anything is changed, run the command, and journal its answer. */
    method CommandAdmitted(kind: Kind, executionId: string, key: string, semantic: string,
                           receipt: Instant, destination: Option<Execution>)
      returns (r: Response)
      requires Valid() && (kind != Renew ==> destination.Some?)
      requires key !in journal && |journal| < capacity
      modifies this
      ensures Valid()
      ensures journal == old(journal)[key := (Fingerprint(kind, executionId, semantic), r)]
      ensures Truthful(r, kind, effects, key)
      ensures r.status == 200 ==> Accomplished(r, kind, executionId, receipt, destination)
      ensures r.status == 200 && kind == Renew ==> old(file).Some? && old(file).value.observedAt <= receipt
      ensures effects == old(effects)
              || (kind != Renew && exists committed ::
                  effects == old(effects) + [Effect(key, destination.value, committed)])
      ensures effects != old(effects) ==>
                old(owner) == None || (kind == Stop && old(owner) == Some(destination.value.id))
      ensures effects != old(effects) && old(owner).Some? && owner.Some? ==>
                owner == old(owner) && r.body.Refused? && r.body.commit == NotCommitted
                    && !CommittedEffect(effects, key)
      ensures old(lastClock).Some? ==> lastClock.Some? && old(lastClock).value <= lastClock.value
    {
      assert NoEffect(effects, key);
      hide CommittedEffect, Accomplished, JournalOk;
      var fingerprint := Fingerprint(kind, executionId, semantic);
      var reserved := Error("guardian_command_failed", executionId, 500, UnknownCommit, UnknownPublication,
                            Some(UnknownOwnership));
      ghost var before, past := journal, effects;
      journal := journal[key := (fingerprint, reserved)];
      r := Execute(kind, executionId, receipt, destination, key);
      journal := journal[key := (fingerprint, r)];
      JournalGrows(capacity, before, past, effects, key, fingerprint, r);
      assert journal == before[key := (fingerprint, r)];
    }

    /**
      `command`. Only an admitted command acts; it calls the service's transition at most once, under its own
      key, and journals what it answers. Ownership stays truthful: it survives a transition only when that
      transition certainly did not commit, and no execution but the owned one transitions while one is owned.
     */
    method Command(kind: Kind, executionId: string, key: string, instance: string, semantic: string,
                   receipt: Instant, destination: Option<Execution>)
      returns (r: Response)
      requires Valid() && (kind != Renew ==> destination.Some?)
      modifies this
      ensures Valid()
      ensures !old(Admitted(key, instance)) ==>
                unchanged(`journal, `lastClock, `owner, `file, `executions, `effects)
      ensures instance == ownerInstanceId && key in old(journal) ==>
                if old(journal)[key].0 == Fingerprint(kind, executionId, semantic)
                   then Replays(r, kind, old(journal)[key].1)
                else r.status == 409 && r.body.Refused? && r.body.commit == NotAttempted
      ensures !old(Admitted(key, instance)) && !(instance == ownerInstanceId && key in old(journal)) ==>
                r.status != 200 && r.body.Refused? && r.body.commit == NotAttempted
      ensures old(Admitted(key, instance)) ==>
                && journal == old(journal)[key := (Fingerprint(kind, executionId, semantic), r)]
                && Truthful(r, kind, effects, key)
                && (r.status == 200 ==> Accomplished(r, kind, executionId, receipt, destination))
                && (r.status == 200 && kind == Renew ==> old(file).Some? && old(file).value.observedAt <= receipt)
      ensures effects == old(effects)
              || (kind != Renew && exists committed ::
                  effects == old(effects) + [Effect(key, destination.value, committed)])
      ensures effects != old(effects) ==>
                old(owner) == None || (kind == Stop && old(owner) == Some(destination.value.id))
      ensures effects != old(effects) && old(owner).Some? && owner.Some? ==>
                owner == old(owner) && r.body.Refused? && r.body.commit == NotCommitted
                    && !CommittedEffect(effects, key)
      ensures old(lastClock).Some? ==> lastClock.Some? && old(lastClock).value <= lastClock.value
    {
      if instance != ownerInstanceId {
        r := Error("guardian_owner_instance_mismatch", executionId, 409, NotAttempted, NotPublished, None);
      } else if key in journal {
        assert Journaled();
        r := Replay(kind, executionId, key, semantic);
      } else if |journal| >= capacity {
        r := Error("guardian_command_capacity_exhausted", executionId, 503, NotAttempted, NotPublished, None);
      } else {
        r := CommandAdmitted(kind, executionId, key, semantic, receipt, destination);
      }
    }

    /** `close`: ownership ends with the process. */
    method Close()
      requires Valid()
      modifies `owner
      ensures Valid() && owner == None
    {
      owner := None;
    }

    /** The journal answers this request: with its own result, a replay of it, or a conflict. */
    ghost predicate Answered(journal: map<string, (Fingerprint, Response)>, q: Request, r: Response) {
      q.instance == ownerInstanceId ==>
        if q.key !in journal then |journal| >= capacity && r.status != 200 && r.body.Refused?
           && r.body.commit == NotAttempted
        else if journal[q.key].0 == Fingerprint(q.kind, q.executionId, q.semantic)
             then Replays(r, q.kind, journal[q.key].1)
        else r.status == 409 && r.body.Refused? && r.body.commit == NotAttempted
    }

    /** A journal that grows within its capacity still gives the same answers. */
    lemma StillAnswered(before: map<string, (Fingerprint, Response)>, after: map<string, (Fingerprint, Response)>,
                        requests: seq<Request>, responses: seq<Response>)
      requires |responses| <= |requests|
      requires forall i :: 0 <= i < |responses| ==> Answered(before, requests[i], responses[i])
      requires before == after || (|before| < capacity && forall k :: k in before ==>
                                   k in after && after[k] == before[k])
      ensures forall i :: 0 <= i < |responses| ==> Answered(after, requests[i], responses[i])
    {
      hide Replays;
      forall i | 0 <= i < |responses| ensures Answered(after, requests[i], responses[i]) {
        assert Answered(before, requests[i], responses[i]);
      }
    }

    /** `command`, seen from the journal. */
    method Step(q: Request) returns (r: Response)
      requires Valid() && WellFormed(q)
      modifies this
      ensures Valid()
      ensures journal == old(journal)
              || (|old(journal)| < capacity && forall k :: k in old(journal) ==>
                  k in journal && journal[k] == old(journal)[k])
      ensures Answered(journal, q, r)
      ensures old(effects) <= effects && |effects| <= |old(effects)| + 1
    {
      r := Command(q.kind, q.executionId, q.key, q.instance, q.semantic, q.receipt, q.destination);
      assert Replays(r, q.kind, r);
    }

    /**
      Any history of commands. The journal and the effects only grow, so what was once answered for a key is
      what every later use of that key is answered with, and `Valid` holds throughout: one effect per key,
      truthful reports, truthful ownership.
     */
    method RunHistory(requests: seq<Request>) returns (responses: seq<Response>)
      requires Valid() && forall i :: 0 <= i < |requests| ==> WellFormed(requests[i])
      modifies this
      ensures Valid() && |responses| == |requests|
      ensures forall k :: k in old(journal) ==> k in journal && journal[k] == old(journal)[k]
      ensures old(effects) <= effects && |effects| <= |old(effects)| + |requests|
      ensures forall i :: 0 <= i < |requests| ==> Answered(journal, requests[i], responses[i])
    {
      hide *;
      responses := [];
      for n := 0 to |requests|
        invariant Valid() && |responses| == n
        invariant forall k :: k in old(journal) ==> k in journal && journal[k] == old(journal)[k]
        invariant old(effects) <= effects && |effects| <= |old(effects)| + n
        invariant forall i :: 0 <= i < n ==> Answered(journal, requests[i], responses[i])
      {
        ghost var before := journal;
        var r := Step(requests[n]);
        StillAnswered(before, journal, requests, responses);
        responses := responses + [r];
      }
    }

    lemma SettledTruth(r: Response, kind: Kind, key: string)
      requires r.status != 200 && r.body.Refused?
      requires r.body.commit == Committed ==> CommittedEffect(effects, key)
      requires r.body.commit == NotAttempted ==> NoEffect(effects, key)
      requires r.body.commit == NotCommitted ==> !CommittedEffect(effects, key)
      ensures Truthful(r, kind, effects, key)
    {
    }
  }
}
