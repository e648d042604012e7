/** What each operation and each answer of a callback makes of a record of the
    write-intent journal, and what the caller is told: the state changes of the protocol,
    over every reached world, in terms of the fields of the record. */
module WriteProtocolOutcomes {
  import opened JsText
  import CanonicalJson
  import opened WriteRecords
  import opened WriteProtocol
  import opened WriteProtocolInvariant
  import opened WriteProtocolSteps
  import opened WriteProtocolTheorems
  import opened WriteProtocolProgress

  predicate Holding(w: World, id: Text, r: Record) { id in w.journal && w.journal[id] == r }

  /** The execution is over, and its caller was told of this failure last. */
  predicate Failed(w: World, e: nat, id: Text, failure: Failure) {
    && e in w.executions && w.executions[e].point.Finished?
    && w.trace != [] && w.trace[|w.trace| - 1] == Threw(e, id, failure)
  }

  /** The execution goes on to its next durable write. */
  function GoesOn(sha: Sha256, w: World, e: nat, now: nat): World { Step(sha, w, Continue(e, Says(true), now)) }

  function Hears(sha: Sha256, w: World, e: nat, answer: Answer): World { Step(sha, w, Continue(e, answer, 0)) }

  // ------------------------------------------------ reserve, approve, decline

  /** The record of a new key waits for approval, with nothing prepared and no outcome. */
  lemma NewKeyWaits(sha: Sha256, w: World, key: Text, intent: Intent, now: nat)
    requires ValidKey(key) && ValidIntent(intent)
    requires |Utf8(CanonicalJson.Canonical(IntentJson(intent)))| <= MAX_INTENT_BYTES
    requires sha(key) !in w.journal && |w.journal| < MAX_RECORDS
    ensures var v := Step(sha, w, ReserveCall(key, intent, now));
            var id := sha(key);
            && id in v.journal && v.journal == w.journal[id := v.journal[id]]
            && var r := v.journal[id];
            && r.intent == intent && r.intentId == id
            && r.fingerprint == sha(CanonicalJson.Canonical(IntentJson(intent)))
            && r.phase.AwaitingApproval? && r.createdAt == r.updatedAt == now
            && r.rawTransaction.None? && r.txid.None? && r.validUntilBlock.None? && r.metadata.None?
            && r.result.None? && r.error.None?
  {
    hide Utf8, CanonicalJson.Canonical, IntentJson;
  }

  /** Approval with the fingerprint of the intent approves a waiting intent; whatever else
      is asked, nothing changes. */
  lemma ApprovalApproves(sha: Sha256, w: World, id: Text, fingerprint: Text, now: nat)
    requires Reached(sha, w) && id in w.journal
    ensures var r := w.journal[id];
            var v := Step(sha, w, ApproveCall(id, fingerprint, now));
            if fingerprint == Fingerprint(sha, r.intent) && r.phase.AwaitingApproval? then
              && v.journal == w.journal[id := r.(phase := Approved, updatedAt := now)]
              && v.trace != [] && v.trace[|v.trace| - 1] == WasApproved(id, fingerprint)
            else v.journal == w.journal
  {
    ReachedRecord(sha, w, id);
    hide Reached, Fingerprint, GetById;
    UpdateSame(w.journal, id);
  }

  lemma RefusalDeclines(sha: Sha256, w: World, id: Text, now: nat)
    requires Reached(sha, w) && id in w.journal
    ensures var r := w.journal[id];
            var v := Step(sha, w, DeclineCall(id, now));
            if r.phase.AwaitingApproval? then v.journal == w.journal[id := r.(phase := Declined, updatedAt := now)]
            else v.journal == w.journal
  {
    ReachedRecord(sha, w, id);
    hide Reached, GetById;
  }

  lemma ReachedRecord(sha: Sha256, w: World, id: Text)
    requires Reached(sha, w) && id in w.journal
    ensures GetById(sha, w.journal, id) == Ok(w.journal[id])
    ensures w.journal[id].fingerprint == Fingerprint(sha, w.journal[id].intent)
  {
    JournalStaysReadable(sha, w, id);
    hide Reached, Fingerprint;
  }

  // ------------------------------------------------------------ entering

  /** What an execution finds when it enters: nothing is done for an intent that is
      waiting, refused or has failed, and its caller is told why. */
  lemma EntersInVain(sha: Sha256, w: World, e: nat)
    requires Reached(sha, w) && e in w.executions && w.executions[e].point.Queued?
    requires w.executions[e].id in w.journal && w.executions[e].id !in w.holder
    ensures var id := w.executions[e].id;
            var r := w.journal[id];
            var v := Step(sha, w, Enter(e));
            && (r.phase.AwaitingApproval? ==> Failed(v, e, id, NotApproved) && v.journal == w.journal)
            && (r.phase.Declined? || r.phase.Expired? || r.phase.Rejected? || r.phase.FailedBeforeSubmission? ==>
                  v.journal == w.journal
                  && Failed(v, e, id, if r.error.Some? then r.error.value else WrongPhase(r.phase)))
  {
    ReachedRecord(sha, w, w.executions[e].id);
    hide Reached, GetById, BuildResult, HasPrepared;
  }

  /** An approved intent is first marked as being prepared, and then `prepare` is called. */
  lemma EntersToPrepare(sha: Sha256, w: World, e: nat, now: nat)
    requires Reached(sha, w) && e in w.executions && w.executions[e].point.Queued?
    requires w.executions[e].id in w.journal && w.executions[e].id !in w.holder
    requires Unprepared(w.journal[w.executions[e].id])
    ensures var id := w.executions[e].id;
            var r := w.journal[id];
            var v := GoesOn(sha, Step(sha, w, Enter(e)), e, now);
            && Holding(v, id, if r.phase.Preparing? then r else r.(phase := Preparing, updatedAt := now))
            && e in v.executions && v.executions[e].point.AwaitPrepare?
            && v.trace != [] && v.trace[|v.trace| - 1] == PrepareCalled(e, id)
  {
    hide Step, Reached, Leads, Unprepared;
    var x := w.executions[e];
    var r := w.journal[x.id];
    var u := Enters(sha, w, e, x, r);
    UnpreparedIs(r);
    var s := if r.phase.Preparing? then r else r.(phase := Preparing, updatedAt := now);
    var v := Writes(sha, u, e, x.(point := Writing(ToPreparing)), r, now, s);
  }

  lemma UnpreparedIs(r: Record)
    requires Unprepared(r)
    ensures r.phase.Approved? || r.phase.Preparing?
  {
  }

  // ------------------------------------------------------------ answers

  /** An execution that is at work on a transaction works on that of the record. */
  lemma WorkAt(sha: Sha256, w: World, e: nat)
    requires Reached(sha, w) && e in w.executions
    requires var point := w.executions[e].point;
             point.AwaitReconcile? || point.AwaitExpiry? || point.CallSubmit? || point.AwaitSubmit?
    ensures var x := w.executions[e];
            && x.id in w.journal && x.prepared.Some? && Holds(w.journal[x.id], x.prepared.value)
            && Interrupted(w.journal[x.id]) && Truthy(w.journal[x.id].rawTransaction) && Truthy(w.journal[x.id].txid)
  {
    hide Inv, Reached, RecordInv, Before, CheckedBefore, Holds, ValidRaw, ValidTxid;
    ReachedInv(sha, w);
    ExecOf(sha, w, e);
    var x := w.executions[e];
    RecordOf(sha, w, x.id);
    SettledFields(sha, w.trace, x.id, w.journal[x.id]);
    PreparedIsTruthy(w.journal[x.id]);
  }

  lemma PreparedIsTruthy(r: Record)
    requires HasPrepared(r)
    ensures Truthy(r.rawTransaction) && Truthy(r.txid)
  {
  }

  /** What `submit` answers decides the record. The expected transaction id, up to case,
      marks it submitted; another one, or an unknown outcome, leaves the outcome unknown,
      to be reconciled later; any other error rejects it. The caller is told. */
  lemma SubmitAnswers(sha: Sha256, w: World, e: nat, answer: Answer, now: nat)
    requires Reached(sha, w) && e in w.executions && w.executions[e].point.AwaitSubmit?
    ensures w.executions[e].id in w.journal && w.executions[e].prepared.Some?
    ensures var x := w.executions[e];
            var r := w.journal[x.id];
            var v := GoesOn(sha, Hears(sha, w, e, answer), e, now);
            match answer
            case TxidAnswer(txid) =>
              if Lower(txid) == Lower(x.prepared.value.txid) then
                Holding(v, x.id, r.(phase := Submitted, error := None, updatedAt := now))
              else
                && Holding(v, x.id, r.(phase := OutcomeUnknown, error := Some(InconsistentResponse), updatedAt := now))
                && Failed(v, e, x.id, InconsistentResponse)
            case UnknownOutcome(failure) =>
              && Holding(v, x.id, r.(phase := OutcomeUnknown, error := Some(failure), updatedAt := now))
              && Failed(v, e, x.id, failure)
            case OtherError(failure) =>
              && Holding(v, x.id, r.(phase := Rejected, error := Some(failure), updatedAt := now))
              && Failed(v, e, x.id, failure)
            case _ => true
  {
    hide Step, Reached, Leads, Lower, BuildResult, Truthy, Holds, Interrupted;
    WorkAt(sha, w, e);
    var x := w.executions[e];
    var r := w.journal[x.id];
    match answer
    case TxidAnswer(txid) =>
      var heard := [SubmitReturned(e, x.id, txid)];
      if Lower(txid) == Lower(x.prepared.value.txid) {
        var u := Takes(sha, w, e, x, r, answer, Go(x, Writing(ToSubmitted), heard));
        var v := Writes(sha, u, e, x.(point := Writing(ToSubmitted)), r, now,
                        r.(phase := Submitted, error := None, updatedAt := now));
      } else {
        var failure := InconsistentResponse;
        SubmitFails(sha, w, e, x, r, answer, now, ToUnknown(failure), heard, failure, OutcomeUnknown);
      }
    case UnknownOutcome(failure) =>
      SubmitFails(sha, w, e, x, r, answer, now, ToUnknown(failure), [], failure, OutcomeUnknown);
    case OtherError(failure) =>
      SubmitFails(sha, w, e, x, r, answer, now, ToRejected(failure), [], failure, Rejected);
    case _ =>
  }

  lemma SubmitFails(sha: Sha256, w: World, e: nat, x: Execution, r: Record, answer: Answer, now: nat, change: Change,
                    heard: seq<Event>, failure: Failure, phase: Phase)
    requires Reached(sha, w) && At(w, e, x, r) && x.point.AwaitSubmit? && Truthy(r.rawTransaction) && Truthy(r.txid)
    requires (change == ToUnknown(failure) && phase.OutcomeUnknown?)
             || (change == ToRejected(failure) && phase.Rejected?)
    requires OnAnswer(e, x, answer) == Some(Go(x, Writing(change), heard))
    ensures var v := GoesOn(sha, Hears(sha, w, e, answer), e, now);
            && Holding(v, x.id, r.(phase := phase, error := Some(failure), updatedAt := now))
            && Failed(v, e, x.id, failure)
  {
    hide Step, Reached, Leads, OnAnswer, Truthy;
    var u := Takes(sha, w, e, x, r, answer, Go(x, Writing(change), heard));
    var v := Writes(sha, u, e, x.(point := Writing(change)), r, now,
                    r.(phase := phase, error := Some(failure), updatedAt := now));
  }

  /** What `prepare` answers: a valid transaction is made durable before anything else is
      done with it, and an error ends the intent before anything was sent. */
  lemma PrepareAnswers(sha: Sha256, w: World, e: nat, answer: Answer, now: nat)
    requires Reached(sha, w) && e in w.executions && w.executions[e].point.AwaitPrepare?
    ensures w.executions[e].id in w.journal
    ensures var x := w.executions[e];
            var r := w.journal[x.id];
            var v := GoesOn(sha, Hears(sha, w, e, answer), e, now);
            match answer
            case PrepareAnswer(p) =>
              if ValidPrepared(p) then
                && Holding(v, x.id,
                           r.(phase := Submitting, rawTransaction := Some(p.rawTransaction), txid := Some(p.txid),
                              validUntilBlock := Some(p.validUntilBlock), metadata := p.metadata, updatedAt := now))
                && e in v.executions && v.executions[e].point.CallSubmit? && v.executions[e].prepared == Some(p)
              else
                && Holding(v, x.id, r)
                && Holding(GoesOn(sha, v, e, now), x.id,
                           r.(phase := FailedBeforeSubmission, error := Some(InvalidPrepared), updatedAt := now))
                && Failed(GoesOn(sha, v, e, now), e, x.id, InvalidPrepared)
            case UnknownOutcome(failure) => FailsBefore(v, e, x.id, r, failure, now)
            case OtherError(failure) => FailsBefore(v, e, x.id, r, failure, now)
            case _ => true
  {
    hide Step, Reached, Leads, ValidPrepared;
    NothingPreparedYet(sha, w, e);
    var x := w.executions[e];
    var r := w.journal[x.id];
    match answer
    case PrepareAnswer(p) =>
      var u := Takes(sha, w, e, x, r, answer, Go(x, Writing(ToPrepared(p)), []));
      var x1 := x.(point := Writing(ToPrepared(p)));
      if ValidPrepared(p) {
        var v := Writes(sha, u, e, x1, r, now,
                        r.(phase := Submitting, rawTransaction := Some(p.rawTransaction), txid := Some(p.txid),
                           validUntilBlock := Some(p.validUntilBlock), metadata := p.metadata, updatedAt := now));
      } else {
        InvalidFails(sha, u, e, x1, r, p, now);
      }
    case UnknownOutcome(failure) =>
      var u := Takes(sha, w, e, x, r, answer, Go(x, Writing(ToFailed(failure)), []));
      WriteFails(sha, u, e, x.(point := Writing(ToFailed(failure))), r, failure, now);
    case OtherError(failure) =>
      var u := Takes(sha, w, e, x, r, answer, Go(x, Writing(ToFailed(failure)), []));
      WriteFails(sha, u, e, x.(point := Writing(ToFailed(failure))), r, failure, now);
    case _ =>
  }

  predicate FailsBefore(v: World, e: nat, id: Text, r: Record, failure: Failure, now: nat) {
    && Holding(v, id, r.(phase := FailedBeforeSubmission, error := Some(failure), updatedAt := now))
    && Failed(v, e, id, failure)
  }

  lemma NothingPreparedYet(sha: Sha256, w: World, e: nat)
    requires Reached(sha, w) && e in w.executions && w.executions[e].point.AwaitPrepare?
    ensures w.executions[e].id in w.journal
    ensures var r := w.journal[w.executions[e].id]; (r.phase.Approved? || r.phase.Preparing?) && r.rawTransaction.None?
  {
    hide Inv, Reached, RecordInv;
    ReachedInv(sha, w);
    ExecOf(sha, w, e);
    var id := w.executions[e].id;
    RecordOf(sha, w, id);
    UnpreparedFacts(sha, w.trace, id, w.journal[id]);
  }

  lemma WriteFails(sha: Sha256, u: World, e: nat, x: Execution, r: Record, failure: Failure, now: nat)
    requires Reached(sha, u) && At(u, e, x, r) && x.point == Writing(ToFailed(failure)) && r.rawTransaction.None?
    ensures FailsBefore(GoesOn(sha, u, e, now), e, x.id, r, failure, now)
  {
    hide Step, Reached, Leads;
    var s := r.(phase := FailedBeforeSubmission, error := Some(failure), updatedAt := now);
    var v := Writes(sha, u, e, x, r, now, s);
  }

  lemma InvalidFails(sha: Sha256, u: World, e: nat, x: Execution, r: Record, p: Prepared, now: nat)
    requires Reached(sha, u) && At(u, e, x, r) && x.point == Writing(ToPrepared(p)) && !ValidPrepared(p)
    requires (r.phase.Approved? || r.phase.Preparing?) && r.rawTransaction.None?
    ensures var v := GoesOn(sha, u, e, now);
            && Holding(v, x.id, r) && FailsBefore(GoesOn(sha, v, e, now), e, x.id, r, InvalidPrepared, now)
  {
    hide Step, Reached, Leads, ValidPrepared, GetById;
    ReachedRecord(sha, u, x.id);
    var eff := Go(x, Writing(ToFailed(InvalidPrepared)), []);
    var v := Acts(sha, u, e, x, r, Says(true), now, eff);
    WriteFails(sha, v, e, x.(point := Writing(ToFailed(InvalidPrepared))), r, InvalidPrepared, now);
  }

  /** What the chain says of an interrupted transaction: found marks it submitted, and
      absent and expired expires it. Nothing changes while it is absent and not expired,
      which is when it is sent again, nor when a check fails. */
  lemma CheckAnswers(sha: Sha256, w: World, e: nat, answer: Answer, now: nat)
    requires Reached(sha, w) && e in w.executions
    requires w.executions[e].point.AwaitReconcile? || w.executions[e].point.AwaitExpiry?
    ensures w.executions[e].id in w.journal
    ensures var x := w.executions[e];
            var r := w.journal[x.id];
            var u := Hears(sha, w, e, answer);
            var v := GoesOn(sha, u, e, now);
            match answer
            case Says(true) =>
              if x.point.AwaitReconcile? then
                Holding(v, x.id, r.(phase := Submitted, error := None, updatedAt := now))
              else
                && Holding(v, x.id, r.(phase := Expired, error := Some(ExpiredUnobserved), updatedAt := now))
                && Failed(v, e, x.id, ExpiredUnobserved)
            case Says(false) =>
              && Holding(u, x.id, r) && e in u.executions
              && u.executions[e] == x.(point := if x.point.AwaitReconcile? then AwaitExpiry else CallSubmit)
            case UnknownOutcome(failure) => Holding(u, x.id, r) && Failed(u, e, x.id, failure)
            case OtherError(failure) => Holding(u, x.id, r) && Failed(u, e, x.id, failure)
            case _ => true
  {
    hide Step, Reached, Leads, Truthy, Holds, Interrupted, BuildResult;
    WorkAt(sha, w, e);
    var x := w.executions[e];
    var r := w.journal[x.id];
    match answer
    case Says(yes) =>
      var next := if x.point.AwaitReconcile? then if yes then Writing(ToSubmitted) else AwaitExpiry
                  else if yes then Writing(ToExpired) else CallSubmit;
      var event := if x.point.AwaitReconcile? then Reconciled(e, x.id, x.prepared.value.txid, yes)
                   else ExpiryChecked(e, x.id, x.prepared.value.validUntilBlock, yes);
      var u := Takes(sha, w, e, x, r, answer, Go(x, next, [event]));
      if yes {
        var s := if x.point.AwaitReconcile? then r.(phase := Submitted, error := None, updatedAt := now)
                 else r.(phase := Expired, error := Some(ExpiredUnobserved), updatedAt := now);
        var v := Writes(sha, u, e, x.(point := next), r, now, s);
      }
    case UnknownOutcome(failure) =>
      var u := Takes(sha, w, e, x, r, answer, Go(x, Finished, [Threw(e, x.id, failure)]));
    case OtherError(failure) =>
      var u := Takes(sha, w, e, x, r, answer, Go(x, Finished, [Threw(e, x.id, failure)]));
    case _ =>
  }
}
