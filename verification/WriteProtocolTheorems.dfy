/** What the write-intent protocol guarantees over every run: any sequence of
    reservations, approvals, refusals, interleaved executions, answers and crashes. */
module WriteProtocolTheorems {
  import opened JsText
  import opened CanonicalJson
  import opened WriteRecords
  import opened WriteProtocol
  import opened WriteProtocolInvariant
  import opened WriteProtocolSteps

  // -------------------------------------------------- one transaction per key

  lemma {:induction false} SubmitFacts(sha: Sha256, w: World, i: nat)
    requires Reached(sha, w)
    requires i < |w.trace| && w.trace[i].SubmitCalled?
    ensures var event := w.trace[i];
            && event.id in w.journal && Holds(w.journal[event.id], event.prepared)
            && DurableBefore(w.trace, i, event.id, event.prepared)
            && Before(w.trace, i, WasApproved(event.id, w.journal[event.id].fingerprint))
            && (Before(w.trace, i, PreparedHere(event.exec, event.id, event.prepared))
                || CheckedBefore(w.trace, i, event.exec, event.id, event.prepared))
  {
    hide Reached, Inv, Holds, DurableBefore, Before, CheckedBefore;
    ReachedInv(sha, w);
    EventOf(sha, w, i);
  }

  lemma {:induction false} HoldsOne(r: Record, p: Prepared, q: Prepared)
    requires Holds(r, p) && Holds(r, q)
    ensures p == q
  {
  }

  /** All submissions for one intent, by whatever executions, before and after
      crashes, carry the same transaction, and the journal durably held that
      transaction before each of them. */
  lemma {:induction false} OneTransactionPerIntent(sha: Sha256, w: World, i: nat, j: nat)
    requires Reached(sha, w)
    requires i < |w.trace| && w.trace[i].SubmitCalled?
    requires j < |w.trace| && w.trace[j].SubmitCalled? && w.trace[i].id == w.trace[j].id
    ensures w.trace[i].prepared == w.trace[j].prepared
    ensures DurableBefore(w.trace, i, w.trace[i].id, w.trace[i].prepared)
  {
    hide Reached, Holds, DurableBefore, Before, CheckedBefore;
    SubmitFacts(sha, w, i);
    SubmitFacts(sha, w, j);
    HoldsOne(w.journal[w.trace[i].id], w.trace[i].prepared, w.trace[j].prepared);
  }

  /** Every submission by an execution that did not prepare the transaction itself
      comes after that same execution found it absent from the chain, and after that
      not expired. */
  lemma {:induction false} ResubmissionChecked(sha: Sha256, w: World, i: nat)
    requires Reached(sha, w)
    requires i < |w.trace| && w.trace[i].SubmitCalled?
    ensures var trace := w.trace;
            var event := trace[i];
            !Before(trace, i, PreparedHere(event.exec, event.id, event.prepared)) ==>
              exists j, k :: 0 <= j < k < i
                && trace[j] == Reconciled(event.exec, event.id, event.prepared.txid, false)
                && trace[k] == ExpiryChecked(event.exec, event.id, event.prepared.validUntilBlock, false)
  {
    hide Reached, Holds, DurableBefore, Before;
    SubmitFacts(sha, w, i);
  }

  // -------------------------------------------------- approval and evidence

  /** A submission comes only after an approval with the fingerprint of the very
      intent, and an intent with a submission is never declined, before or after. */
  lemma {:induction false} SubmittedOnlyIfApproved(sha: Sha256, w: World, i: nat, k: nat)
    requires Reached(sha, w)
    requires i < |w.trace| && w.trace[i].SubmitCalled? && k < |w.trace|
    ensures var id := w.trace[i].id;
            && id in w.journal
            && Before(w.trace, i, WasApproved(id, Fingerprint(sha, w.journal[id].intent)))
            && w.trace[k] != WasDeclined(id)
  {
    hide Reached, DurableBefore, Before, CheckedBefore, Quiet, ExecInv, Fingerprint, ValidIntent, AcceptedBefore,
         BuildResult;
    hide Inv;
    SubmitFacts(sha, w, i);
    ReachedInv(sha, w);
    EventOf(sha, w, k);
    RecordOf(sha, w, w.trace[i].id);
  }

  /** An intent is marked submitted only on evidence: some submission returned its
      transaction id, or some reconciliation found its transaction on the chain. */
  lemma {:induction false} SubmittedOnlyOnEvidence(sha: Sha256, w: World, id: Text)
    requires Reached(sha, w)
    requires id in w.journal && w.journal[id].phase.Submitted?
    ensures exists p, k :: 0 <= k < |w.trace| && Holds(w.journal[id], p) && ShowsAccepted(w.trace[k], id, p)
  {
    hide Reached, DurableBefore, Before, Quiet, ExecInv, EventInv, Fingerprint, ValidIntent, BuildResult, ShowsAccepted;
    ReachedInv(sha, w);
    assert RecordInv(sha, w.trace, id, w.journal[id]);
    PreparedFieldsHold(w.journal[id]);
    var p := PreparedOf(w.journal[id]);
    assert AcceptedBefore(w.trace, |w.trace|, id, p);
  }

  // ------------------------------------------------------- what a result holds

  const RESULT_NAMES: seq<Text> := [Ascii("txid"), Ascii("operation"), Ascii("network"), Ascii("signerAddress")]

  /** The field is this text, unless the metadata has a field of that name. */
  predicate FieldIs(result: Fields, metadata: Option<Fields>, name: Text, t: Text) {
    metadata.None? || name !in metadata.value ==> name in result && result[name] == StrValue(t)
  }

  /** The result of an intent: every field of the metadata, and where it has none of that
      name the transaction id, the operation, the network and the signer; nothing else. */
  predicate IsResultOf(intent: Intent, txid: Text, metadata: Option<Fields>, result: Fields) {
    && (forall k :: k in result ==> k in RESULT_NAMES || (metadata.Some? && k in metadata.value))
    && (metadata.Some? ==> forall k :: k in metadata.value ==> k in result && result[k] == metadata.value[k])
    && FieldIs(result, metadata, Ascii("txid"), txid)
    && FieldIs(result, metadata, Ascii("operation"), intent.operation)
    && FieldIs(result, metadata, Ascii("network"), intent.network)
    && FieldIs(result, metadata, Ascii("signerAddress"), intent.signerAddress)
  }

  lemma BuildsResult(intent: Intent, txid: Text, metadata: Option<Fields>)
    ensures IsResultOf(intent, txid, metadata, BuildResult(intent, txid, metadata))
  {
    assert |Ascii("txid")| == 4 && |Ascii("operation")| == 9 && |Ascii("network")| == 7;
    assert |Ascii("signerAddress")| == 13;
    assert RESULT_NAMES[0] == Ascii("txid") && RESULT_NAMES[1] == Ascii("operation");
    assert RESULT_NAMES[2] == Ascii("network") && RESULT_NAMES[3] == Ascii("signerAddress");
  }

  /** A result in the journal is that of its intent with its one transaction. */
  lemma {:induction false} ResultsTell(sha: Sha256, w: World, id: Text)
    requires Reached(sha, w) && id in w.journal && w.journal[id].result.Some?
    ensures var r := w.journal[id];
            r.phase.Submitted? && r.txid.Some? && IsResultOf(r.intent, r.txid.value, r.metadata, r.result.value)
  {
    hide Reached, DurableBefore, Before, CheckedBefore, Quiet, ExecInv, Fingerprint, ValidIntent, AcceptedBefore;
    hide Inv, BuildResult, IsResultOf;
    ReachedInv(sha, w);
    RecordOf(sha, w, id);
    var r := w.journal[id];
    BuildsResult(r.intent, r.txid.GetOr([]), r.metadata);
  }

  // ---------------------------------------------------------- stable outcome

  /** Every result ever returned for an intent is the same, and it is the result of the
      fixed intent with its one transaction. */
  lemma {:induction false} SameResult(sha: Sha256, w: World, i: nat, j: nat)
    requires Reached(sha, w)
    requires i < |w.trace| && w.trace[i].Returned?
    requires j < |w.trace| && w.trace[j].Returned? && w.trace[i].id == w.trace[j].id
    ensures var id := w.trace[i].id;
            && w.trace[i].result == w.trace[j].result
            && id in w.journal && w.journal[id].txid.Some?
            && IsResultOf(w.journal[id].intent, w.journal[id].txid.value, w.journal[id].metadata, w.trace[i].result)
  {
    hide Reached, DurableBefore, Before, CheckedBefore, Inv, IsResultOf;
    ReachedInv(sha, w);
    EventOf(sha, w, i);
    EventOf(sha, w, j);
    ResultsTell(sha, w, w.trace[i].id);
  }

  /** Once a result has been returned, no execution of that intent prepares,
      reconciles, submits or fails ever again. */
  lemma {:induction false} NothingAfterResult(sha: Sha256, w: World, i: nat, j: nat)
    requires Reached(sha, w)
    requires i < j < |w.trace| && w.trace[i].Returned?
    ensures !IsActivity(w.trace[j], w.trace[i].id)
  {
    hide Reached, RecordInv, ExecInv, EventInv, IsActivity;
    ReachedInv(sha, w);
  }

  /** An execution that enters after a result was returned returns that result at
      once and touches no record. */
  lemma {:induction false} LaterExecuteReturnsSame(sha: Sha256, w: World, i: nat, e: nat)
    requires Reached(sha, w)
    requires i < |w.trace| && w.trace[i].Returned?
             && e in w.executions && w.executions[e].point.Queued?
             && w.executions[e].id == w.trace[i].id && w.trace[i].id !in w.holder
    ensures var v := Step(sha, w, Enter(e));
            v.trace == w.trace + [Returned(e, w.trace[i].id, w.trace[i].result)] && v.journal == w.journal
  {
    hide Reached, DurableBefore, Before, CheckedBefore, Quiet, ExecInv, Fingerprint, ValidIntent, AcceptedBefore,
         BuildResult;
    ReachedInv(sha, w);
    var id := w.trace[i].id;
    assert EventInv(w.journal, w.trace, i);
    assert RecordInv(sha, w.trace, id, w.journal[id]);
    ReadsRecord(sha, w, id);
    EnterReturns(sha, w, e, w.trace[i].result);
  }

  lemma {:induction false} ReadsRecord(sha: Sha256, w: World, id: Text)
    requires id in w.journal && RecordInv(sha, w.trace, id, w.journal[id])
    ensures GetById(sha, w.journal, id) == Ok(w.journal[id])
  {
    hide ValidPersisted;
  }

  lemma {:induction false} EnterReturns(sha: Sha256, w: World, e: nat, result: Fields)
    requires e in w.executions && w.executions[e].point.Queued? && w.executions[e].id !in w.holder
    requires w.executions[e].id in w.journal
    requires var r := w.journal[w.executions[e].id];
             GetById(sha, w.journal, w.executions[e].id) == Ok(r) && r.phase.Submitted? && r.result == Some(result)
    ensures var v := Step(sha, w, Enter(e));
            v.trace == w.trace + [Returned(e, w.executions[e].id, result)] && v.journal == w.journal
  {
    hide GetById, OnPrepared, BuildResult;
  }

  /** After a crash between marking an intent submitted and completing it, the next
      execution returns the result built from the record: no callback that reaches
      the network is called. */
  lemma {:induction false} RebuildsResultAfterCrash(sha: Sha256, w: World, e: nat, answer: Answer, now: nat)
    requires Reached(sha, w)
    requires e in w.executions && w.executions[e].point.Queued?
             && w.executions[e].id in w.journal && w.executions[e].id !in w.holder
             && w.journal[w.executions[e].id].phase.Submitted? && w.journal[w.executions[e].id].result.None?
    ensures var id := w.executions[e].id;
            var r := w.journal[id];
            var v := Step(sha, Step(sha, w, Enter(e)), Continue(e, answer, now));
            && r.txid.Some? && id in v.journal && v.journal[id].result.Some?
            && var result := v.journal[id].result.value;
            && IsResultOf(r.intent, r.txid.value, r.metadata, result)
            && v.trace == w.trace + [Durable(id, v.journal[id]), Returned(e, id, result)]
  {
    hide Reached, DurableBefore, Before, CheckedBefore, Quiet, EventInv, Fingerprint, ValidIntent, AcceptedBefore,
         BuildResult, Step;
    ReachedInv(sha, w);
    var id := w.executions[e].id;
    assert ExecInv(w, e, w.executions[e]);
    assert RecordInv(sha, w.trace, id, w.journal[id]);
    ReadsRecord(sha, w, id);
    EnterRebuilds(sha, w, e);
    var u := Step(sha, w, Enter(e));
    var result := BuildResult(w.journal[id].intent, w.journal[id].txid.value, w.journal[id].metadata);
    BuildsResult(w.journal[id].intent, w.journal[id].txid.value, w.journal[id].metadata);
    hide IsResultOf;
    ContinueRebuilds(sha, u, e, result, answer, now);
  }

  lemma {:induction false} EnterRebuilds(sha: Sha256, w: World, e: nat)
    requires e in w.executions && w.executions[e].point.Queued? && w.executions[e].id !in w.holder
    requires w.executions[e].id in w.journal
    requires var r := w.journal[w.executions[e].id];
             && GetById(sha, w.journal, w.executions[e].id) == Ok(r)
             && w.executions[e].intent == r.intent
             && r.phase.Submitted? && r.result.None? && r.txid.Some?
    ensures var v := Step(sha, w, Enter(e));
            var r := w.journal[w.executions[e].id];
            && v.journal == w.journal && v.trace == w.trace && e in v.executions
            && v.executions[e]
               == w.executions[e].(point := Writing(ToCompleted(BuildResult(r.intent, r.txid.value, r.metadata))))
  {
    hide GetById, OnPrepared, BuildResult;
  }

  lemma {:induction false} ContinueRebuilds(sha: Sha256, w: World, e: nat, result: Fields, answer: Answer, now: nat)
    requires e in w.executions && w.executions[e].point == Writing(ToCompleted(result))
    requires w.executions[e].id in w.journal
    requires var r := w.journal[w.executions[e].id];
             GetById(sha, w.journal, w.executions[e].id) == Ok(r) && r.phase.Submitted?
    ensures var v := Step(sha, w, Continue(e, answer, now));
            var id := w.executions[e].id;
            && id in v.journal && v.journal[id].result == Some(result)
            && v.trace == w.trace + [Durable(id, v.journal[id]), Returned(e, id, result)]
  {
    hide GetById, Step, BuildResult;
    ContinueStep(sha, w, e, answer, now);
  }

  // ------------------------------------------------------- journal invariant

  /** Every record of every reachable journal reads back as valid, and there are
      never more records than the quota. */
  lemma {:induction false} JournalStaysReadable(sha: Sha256, w: World, id: Text)
    requires Reached(sha, w) && id in w.journal
    ensures GetById(sha, w.journal, id) == Ok(w.journal[id]) && |w.journal| <= MAX_RECORDS
  {
    hide Reached, RecordInv, ExecInv, EventInv, Quiet, HoldersInv, GetById;
    ReachedInv(sha, w);
    QuotaKept(sha, w);
    RecordOf(sha, w, id);
    ReadsRecord(sha, w, id);
  }

  /** From any point of any run on: no record disappears; its intent, identifier,
      fingerprint and creation time stay; its phase only moves up the fixed order; a
      prepared transaction stays; and a final record stays as it is, but for the
      result of a submitted one, which stays once it is there. */
  lemma {:induction false} RecordsOnlyEvolve(sha: Sha256, w: World, v: World, id: Text)
    requires Reached(sha, w) && Leads(sha, w, v) && id in w.journal
    ensures id in v.journal
    ensures var r := w.journal[id];
            var s := v.journal[id];
            && s.intent == r.intent && s.intentId == r.intentId && s.fingerprint == r.fingerprint
            && s.createdAt == r.createdAt
            && MayBecome(r.phase, s.phase)
            && (NeedsPrepared(r.phase) ==> SamePrepared(r, s))
            && (IsFinal(r.phase) && !r.phase.Submitted? ==> s == r)
            && (r.result.Some? ==> s == r)
  {
    ReachedInv(sha, w);
    hide Inv, Reached, Leads;
    LeadsKeepsInv(sha, w, v);
  }

  /** Two executions of one intent are never inside `runExclusive` together. */
  lemma {:induction false} OneExecutionAtATime(sha: Sha256, w: World, d: nat, e: nat)
    requires Reached(sha, w)
    requires d in w.executions && IsActive(w.executions[d].point)
    requires e in w.executions && IsActive(w.executions[e].point) && w.executions[d].id == w.executions[e].id
    ensures d == e
  {
    hide Reached, Inv, PointInv, IsActive;
    ReachedInv(sha, w);
    ExecOf(sha, w, d);
    ExecOf(sha, w, e);
  }

  // --------------------------------------------------------- reuse of a key

  lemma {:induction false} IntentWellFormed(intent: Intent)
    requires WellFormed(intent.payload)
    ensures WellFormed(IntentJson(intent))
  {
    assert |Ascii("operation")| == 9 && |Ascii("network")| == 7 && |Ascii("signerAddress")| == 13;
    assert Ascii("network")[0] == 110 && Ascii("payload")[0] == 112;
  }

  lemma {:induction false} ReserveExisting(sha: Sha256, journal: Journal, key: Text, intent: Intent, now: nat)
    requires sha(key) in journal && GetById(sha, journal, sha(key)) == Ok(journal[sha(key)])
    requires ValidKey(key) && ValidIntent(intent) && |Utf8(Canonical(IntentJson(intent)))| <= MAX_INTENT_BYTES
    ensures Reserve(sha, journal, key, intent, now) ==
            if journal[sha(key)].fingerprint == Fingerprint(sha, intent) then Ok(journal[sha(key)]) else Err(KeyReused)
  {
    hide GetById, Fingerprint, Utf8, Canonical, IntentJson;
  }

  /** A key that is in use is accepted again exactly for the same request: the same
      value up to the order of object keys. The only thing assumed of SHA-256 is
      that it tells the two canonical texts apart. */
  lemma {:induction false} KeyReusedOnlyForSameRequest(sha: Sha256, w: World, key: Text, intent: Intent, now: nat)
    requires Reached(sha, w) && sha(key) in w.journal
    requires ValidKey(key) && ValidIntent(intent) && |Utf8(Canonical(IntentJson(intent)))| <= MAX_INTENT_BYTES
    requires WellFormed(intent.payload) && WellFormed(w.journal[sha(key)].intent.payload)
    requires var first := w.journal[sha(key)].intent;
             sha(Canonical(IntentJson(intent))) == sha(Canonical(IntentJson(first))) ==>
               Canonical(IntentJson(intent)) == Canonical(IntentJson(first))
    ensures var first := w.journal[sha(key)].intent;
            && (Reserve(sha, w.journal, key, intent, now) == Ok(w.journal[sha(key)]) <==>
                Meaning(IntentJson(intent)) == Meaning(IntentJson(first)))
            && (Reserve(sha, w.journal, key, intent, now) == Err(KeyReused) <==>
                Meaning(IntentJson(intent)) != Meaning(IntentJson(first)))
  {
    hide Reached, Canonical, IntentJson, Utf8, Meaning, WellFormed, Reserve;
    var first := w.journal[sha(key)].intent;
    JournalStaysReadable(sha, w, sha(key));
    ReserveExisting(sha, w.journal, key, intent, now);
    IntentWellFormed(intent);
    IntentWellFormed(first);
    CanonicalDecidesMeaning(IntentJson(intent), IntentJson(first));
  }
}
