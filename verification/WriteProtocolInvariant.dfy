/** The invariant of the write-intent protocol and its proof. The theorems about
    runs are in WriteProtocolTheorems.dfy. */
module WriteProtocolInvariant {
  import opened JsText
  import opened CanonicalJson
  import opened WriteRecords
  import opened WriteProtocol

  // ------------------------------------------------ what a trace can witness

  /** The record is past preparation and holds exactly this transaction. */
  predicate Holds(r: Record, p: Prepared) {
    && NeedsPrepared(r.phase)
    && r.rawTransaction == Some(p.rawTransaction) && r.txid == Some(p.txid)
    && r.validUntilBlock == Some(p.validUntilBlock) && r.metadata == p.metadata
  }

  ghost predicate Before(trace: seq<Event>, i: nat, event: Event) {
    exists k :: 0 <= k < i && k < |trace| && trace[k] == event
  }

  /** The journal durably held the transaction before position i. */
  ghost predicate DurableBefore(trace: seq<Event>, i: nat, id: Text, p: Prepared) {
    exists k :: 0 <= k < i && k < |trace| && trace[k].Durable? && trace[k].id == id && Holds(trace[k].record, p)
  }

  /** Execution e found the transaction absent from the chain, and after that not
      expired, before position i. */
  ghost predicate CheckedBefore(trace: seq<Event>, i: nat, e: nat, id: Text, p: Prepared) {
    exists j, k :: 0 <= j < k < i && k < |trace|
      && trace[j] == Reconciled(e, id, p.txid, false)
      && trace[k] == ExpiryChecked(e, id, p.validUntilBlock, false)
  }

  /** An event that shows that the chain took the transaction. */
  predicate ShowsAccepted(event: Event, id: Text, p: Prepared) {
    || (event.SubmitReturned? && event.id == id && Lower(event.txid) == Lower(p.txid))
    || (event.Reconciled? && event.id == id && event.txid == p.txid && event.found)
  }

  ghost predicate AcceptedBefore(trace: seq<Event>, i: nat, id: Text, p: Prepared) {
    exists k :: 0 <= k < i && k < |trace| && ShowsAccepted(trace[k], id, p)
  }

  /** An event of an execution that is still at work on the intent, or that fails. */
  predicate IsActivity(event: Event, id: Text) {
    || (event.PrepareCalled? && event.id == id)
    || (event.ReconcileCalled? && event.id == id)
    || (event.SubmitCalled? && event.id == id)
    || (event.Threw? && event.id == id)
  }

  // ------------------------------------------------------------- invariant

  ghost predicate RecordInv(sha: Sha256, trace: seq<Event>, id: Text, r: Record) {
    && IsLowerHex64(id)
    && ValidPersisted(sha, r, id)
    && (HasAnyPreparedField(r) ==> NeedsPrepared(r.phase))
    && (!r.phase.AwaitingApproval? && !r.phase.Declined? ==> Before(trace, |trace|, WasApproved(id, r.fingerprint)))
    && (NeedsPrepared(r.phase) ==> DurableBefore(trace, |trace|, id, PreparedOf(r)))
    && (r.phase.Submitted? ==> AcceptedBefore(trace, |trace|, id, PreparedOf(r)))
    && (r.result.Some? ==> r.result.value == BuildResult(r.intent, r.txid.value, r.metadata))
  }

  /** The execution works on the transaction of a record that is not yet settled. */
  predicate AtWork(r: Record, x: Execution) {
    x.prepared.Some? && Holds(r, x.prepared.value) && (r.phase.Submitting? || r.phase.OutcomeUnknown?)
  }

  predicate Unprepared(r: Record) { r.phase.Approved? || r.phase.Preparing? }

  ghost predicate PointInv(trace: seq<Event>, r: Record, e: nat, x: Execution) {
    match x.point
    case Writing(ToPreparing) => Unprepared(r)
    case AwaitPrepare => Unprepared(r)
    case Writing(ToPrepared(_)) => Unprepared(r)
    case Writing(ToFailed(_)) => Unprepared(r)
    case AwaitReconcile => AtWork(r, x)
    case AwaitExpiry => AtWork(r, x) && Before(trace, |trace|, Reconciled(e, x.id, x.prepared.value.txid, false))
    case CallSubmit =>
      AtWork(r, x) && (Before(trace, |trace|, PreparedHere(e, x.id, x.prepared.value))
                       || CheckedBefore(trace, |trace|, e, x.id, x.prepared.value))
    case AwaitSubmit => AtWork(r, x)
    case Writing(ToUnknown(_)) => AtWork(r, x)
    case Writing(ToRejected(_)) => AtWork(r, x)
    case Writing(ToExpired) => AtWork(r, x)
    case Writing(ToSubmitted) => AtWork(r, x) && AcceptedBefore(trace, |trace|, x.id, x.prepared.value)
    case Writing(ToCompleted(result)) =>
      r.phase.Submitted? && r.result.None? && result == BuildResult(r.intent, r.txid.GetOr([]), r.metadata)
    case _ => true
  }

  predicate IsActive(point: Point) { !point.Queued? && !point.Finished? && !point.Lost? }

  ghost predicate ExecInv(w: World, e: nat, x: Execution) {
    && x.id in w.journal && x.intent == w.journal[x.id].intent
    && (IsActive(x.point) ==> x.id in w.holder && w.holder[x.id] == e && PointInv(w.trace, w.journal[x.id], e, x))
  }

  /** What an event in the trace says about the journal now and the trace before it. */
  ghost predicate EventInv(journal: Journal, trace: seq<Event>, i: nat)
    requires i < |trace|
  {
    match trace[i]
    case WasDeclined(id) => id in journal && journal[id].phase.Declined?
    case Returned(_, id, result) => id in journal && journal[id].result == Some(result)
    case SubmitCalled(e, id, p) =>
      && id in journal && Holds(journal[id], p)
      && DurableBefore(trace, i, id, p)
      && Before(trace, i, WasApproved(id, journal[id].fingerprint))
      && (Before(trace, i, PreparedHere(e, id, p)) || CheckedBefore(trace, i, e, id, p))
    case _ => true
  }

  /** After a result has been returned, nothing more is done for the intent. */
  ghost predicate Quiet(trace: seq<Event>) {
    forall i, j :: 0 <= i < j < |trace| && trace[i].Returned? ==> !IsActivity(trace[j], trace[i].id)
  }

  /** Who holds the lock of an intent is at work on it. */
  predicate HoldersInv(w: World) {
    forall id :: id in w.holder ==>
      w.holder[id] in w.executions && IsActive(w.executions[w.holder[id]].point) && w.executions[w.holder[id]].id == id
  }

  ghost predicate Inv(sha: Sha256, w: World) {
    && (forall id {:trigger RecordInv(sha, w.trace, id, w.journal[id])} :: id in w.journal ==>
          RecordInv(sha, w.trace, id, w.journal[id]))
    && (forall e {:trigger ExecInv(w, e, w.executions[e])} :: e in w.executions ==> ExecInv(w, e, w.executions[e]))
    && HoldersInv(w)
    && (forall i {:trigger EventInv(w.journal, w.trace, i)} :: 0 <= i < |w.trace| ==> EventInv(w.journal, w.trace, i))
    && Quiet(w.trace)
  }

  lemma ExecOf(sha: Sha256, w: World, e: nat)
    requires Inv(sha, w) && e in w.executions
    ensures ExecInv(w, e, w.executions[e])
  {
    hide ExecInv, RecordInv, EventInv, Quiet, HoldersInv;
  }

  lemma RecordOf(sha: Sha256, w: World, id: Text)
    requires Inv(sha, w) && id in w.journal
    ensures RecordInv(sha, w.trace, id, w.journal[id])
  {
    hide ExecInv, RecordInv, EventInv, Quiet, HoldersInv;
  }

  lemma EventOf(sha: Sha256, w: World, i: nat)
    requires Inv(sha, w) && i < |w.trace|
    ensures EventInv(w.journal, w.trace, i)
  {
    hide ExecInv, RecordInv, EventInv, Quiet, HoldersInv;
  }

  // ------------------------------------------------------ traces only grow

  lemma RecordInvGrows(sha: Sha256, trace: seq<Event>, more: seq<Event>, id: Text, r: Record)
    requires RecordInv(sha, trace, id, r)
    ensures RecordInv(sha, trace + more, id, r)
  {
    assert forall k :: 0 <= k < |trace| ==> (trace + more)[k] == trace[k];
  }

  lemma PointInvGrows(trace: seq<Event>, more: seq<Event>, r: Record, e: nat, x: Execution)
    requires PointInv(trace, r, e, x)
    ensures PointInv(trace + more, r, e, x)
  {
    assert forall k :: 0 <= k < |trace| ==> (trace + more)[k] == trace[k];
  }

  lemma EventInvGrows(journal: Journal, after: Journal, trace: seq<Event>, more: seq<Event>, i: nat)
    requires i < |trace| && EventInv(journal, trace, i)
    requires forall id :: id in journal ==> id in after && Evolves(journal[id], after[id])
    ensures EventInv(after, trace + more, i)
  {
    assert forall k :: 0 <= k < |trace| ==> (trace + more)[k] == trace[k];
  }

  // --------------------------------------------------------- single effects

  function RecordAfter(r: Record, eff: Effect): Record { if eff.write.Some? then eff.write.value else r }

  function EventsOf(eff: Effect): seq<Event> {
    (if eff.write.Some? then [Durable(eff.next.id, eff.write.value)] else []) + eff.events
  }

  /** An event that an execution may add for its own intent, given the record after it. */
  ghost predicate NewEventInv(r: Record, trace: seq<Event>, i: nat, id: Text)
    requires i < |trace|
  {
    match trace[i]
    case WasDeclined(_) => false
    case Returned(_, d, result) => d == id && r.result == Some(result)
    case SubmitCalled(e, d, p) =>
      && d == id && Holds(r, p) && DurableBefore(trace, i, id, p)
      && Before(trace, i, WasApproved(id, r.fingerprint))
      && (Before(trace, i, PreparedHere(e, id, p)) || CheckedBefore(trace, i, e, id, p))
    case PrepareCalled(_, d) => d == id
    case ReconcileCalled(_, d, _) => d == id
    case Threw(_, d, _) => d == id
    case _ => true
  }

  /** All that the rest of the proof needs to know about one act of an execution. */
  ghost predicate EffectInv(sha: Sha256, trace: seq<Event>, r: Record, e: nat, x: Execution, eff: Effect) {
    var after := trace + EventsOf(eff);
    var s := RecordAfter(r, eff);
    && eff.next.id == x.id && eff.next.intent == x.intent
    && (IsActive(eff.next.point) || eff.next.point.Finished?)
    && Evolves(r, s) && RecordInv(sha, after, x.id, s)
    && PointInv(after, s, e, eff.next)
    && (forall i :: |trace| <= i < |after| ==> NewEventInv(s, after, i, x.id))
    && (forall k :: 0 <= k < |eff.events| && IsActivity(eff.events[k], x.id) ==> r.result.None?)
    && (forall i, j :: 0 <= i < j < |eff.events| && eff.events[i].Returned? ==> !IsActivity(eff.events[j], x.id))
  }

  /** Facts about a record before an act, in the form the cases below use them. */
  ghost predicate Ready(sha: Sha256, journal: Journal, trace: seq<Event>, x: Execution) {
    x.id in journal && x.intent == journal[x.id].intent && RecordInv(sha, trace, x.id, journal[x.id])
  }

  lemma GoKeeps(sha: Sha256, trace: seq<Event>, r: Record, e: nat, x: Execution, eff: Effect)
    requires x.intent == r.intent && RecordInv(sha, trace, x.id, r)
    requires eff.write.None? && |eff.events| <= 1 && eff.next.id == x.id && eff.next.intent == x.intent
    requires IsActive(eff.next.point) || eff.next.point.Finished?
    requires PointInv(trace + eff.events, r, e, eff.next)
    requires |eff.events| == 1 ==>
      NewEventInv(r, trace + eff.events, |trace|, x.id) && (IsActivity(eff.events[0], x.id) ==> r.result.None?)
    ensures EffectInv(sha, trace, r, e, x, eff)
  {
    hide RecordInv, PointInv, NewEventInv, IsActive, IsActivity;
    assert EventsOf(eff) == eff.events;
    RecordInvGrows(sha, trace, eff.events, x.id, r);
  }

  lemma EnterKeeps(sha: Sha256, journal: Journal, trace: seq<Event>, e: nat, x: Execution)
    requires Ready(sha, journal, trace, x) && x.point.Queued?
    ensures EffectInv(sha, trace, journal[x.id], e, x, OnEnter(sha, journal, e, x))
  {
    hide Fingerprint, BuildResult, ValidIntent, EffectInv, AcceptedBefore, DurableBefore, CheckedBefore, Before;
    GoKeeps(sha, trace, journal[x.id], e, x, OnEnter(sha, journal, e, x));
  }

  lemma PrepareAnswerKeeps(sha: Sha256, trace: seq<Event>, r: Record, e: nat, x: Execution, answer: Answer)
    requires x.intent == r.intent && RecordInv(sha, trace, x.id, r) && PointInv(trace, r, e, x)
    requires x.point.AwaitPrepare? && OnAnswer(e, x, answer).Some?
    ensures EffectInv(sha, trace, r, e, x, OnAnswer(e, x, answer).value)
  {
    hide RecordInv, EffectInv;
    GoKeeps(sha, trace, r, e, x, OnAnswer(e, x, answer).value);
  }

  /** What the record says when an execution is at work on its transaction. */
  lemma WorkFacts(sha: Sha256, trace: seq<Event>, r: Record, x: Execution)
    requires RecordInv(sha, trace, x.id, r) && AtWork(r, x)
    ensures r.result.None? && PreparedOf(r) == x.prepared.value
    ensures DurableBefore(trace, |trace|, x.id, x.prepared.value)
    ensures Before(trace, |trace|, WasApproved(x.id, r.fingerprint))
  {
    hide DurableBefore, Before, AcceptedBefore, Fingerprint, BuildResult;
  }

  lemma ReconcileAnswerKeeps(sha: Sha256, trace: seq<Event>, r: Record, e: nat, x: Execution, answer: Answer)
    requires x.intent == r.intent && RecordInv(sha, trace, x.id, r) && AtWork(r, x)
    requires x.point.AwaitReconcile? && OnAnswer(e, x, answer).Some?
    ensures EffectInv(sha, trace, r, e, x, OnAnswer(e, x, answer).value)
  {
    hide RecordInv, EffectInv, Holds, CheckedBefore, DurableBefore;
    WorkFacts(sha, trace, r, x);
    var eff := OnAnswer(e, x, answer).value;
    assert (trace + eff.events)[|trace|] == eff.events[0];
    assert eff.next.prepared == x.prepared && eff.next.id == x.id;
    GoKeeps(sha, trace, r, e, x, eff);
  }

  lemma ExpiryAnswerKeeps(sha: Sha256, trace: seq<Event>, r: Record, e: nat, x: Execution, answer: Answer)
    requires x.intent == r.intent && RecordInv(sha, trace, x.id, r) && AtWork(r, x)
    requires Before(trace, |trace|, Reconciled(e, x.id, x.prepared.value.txid, false))
    requires x.point.AwaitExpiry? && OnAnswer(e, x, answer).Some?
    ensures EffectInv(sha, trace, r, e, x, OnAnswer(e, x, answer).value)
  {
    hide RecordInv, EffectInv, Holds, DurableBefore;
    WorkFacts(sha, trace, r, x);
    var eff := OnAnswer(e, x, answer).value;
    var after := trace + eff.events;
    assert after[|trace|] == eff.events[0];
    var k :| 0 <= k < |trace| && trace[k] == Reconciled(e, x.id, x.prepared.value.txid, false);
    assert after[k] == trace[k];
    assert eff.next.prepared == x.prepared && eff.next.id == x.id;
    GoKeeps(sha, trace, r, e, x, eff);
  }

  lemma SubmitEventHolds(trace: seq<Event>, r: Record, e: nat, id: Text, p: Prepared, more: seq<Event>)
    requires Holds(r, p) && DurableBefore(trace, |trace|, id, p)
    requires Before(trace, |trace|, WasApproved(id, r.fingerprint))
    requires Before(trace, |trace|, PreparedHere(e, id, p)) || CheckedBefore(trace, |trace|, e, id, p)
    requires more == [SubmitCalled(e, id, p)]
    ensures NewEventInv(r, trace + more, |trace|, id)
  {
    assert forall k :: 0 <= k < |trace| ==> (trace + more)[k] == trace[k];
  }

  lemma SubmitCallEffect(e: nat, x: Execution, answer: Answer)
    requires x.point.CallSubmit? && x.prepared.Some?
    ensures OnAnswer(e, x, answer) == Some(Go(x, AwaitSubmit, [SubmitCalled(e, x.id, x.prepared.value)]))
  {
  }

  lemma SubmitCallKeeps(sha: Sha256, trace: seq<Event>, r: Record, e: nat, x: Execution, answer: Answer)
    requires x.intent == r.intent && RecordInv(sha, trace, x.id, r) && AtWork(r, x)
    requires Before(trace, |trace|, PreparedHere(e, x.id, x.prepared.value))
             || CheckedBefore(trace, |trace|, e, x.id, x.prepared.value)
    requires x.point.CallSubmit? && OnAnswer(e, x, answer).Some?
    ensures EffectInv(sha, trace, r, e, x, OnAnswer(e, x, answer).value)
  {
    hide RecordInv, EffectInv, Holds, Before, CheckedBefore, DurableBefore, NewEventInv, IsActivity, OnAnswer;
    WorkFacts(sha, trace, r, x);
    SubmitCallEffect(e, x, answer);
    var eff := Go(x, AwaitSubmit, [SubmitCalled(e, x.id, x.prepared.value)]);
    SubmitEventHolds(trace, r, e, x.id, x.prepared.value, eff.events);
    GoKeeps(sha, trace, r, e, x, eff);
  }

  lemma SubmitAnswerKeeps(sha: Sha256, trace: seq<Event>, r: Record, e: nat, x: Execution, answer: Answer)
    requires x.intent == r.intent && RecordInv(sha, trace, x.id, r) && PointInv(trace, r, e, x)
    requires x.point.AwaitSubmit? && OnAnswer(e, x, answer).Some?
    ensures EffectInv(sha, trace, r, e, x, OnAnswer(e, x, answer).value)
  {
    hide RecordInv, EffectInv, Holds, ValidPersisted;
    var eff := OnAnswer(e, x, answer).value;
    var after := trace + eff.events;
    if |eff.events| == 1 {
      assert after[|trace|] == eff.events[0];
    }
    GoKeeps(sha, trace, r, e, x, eff);
  }

  lemma AnswerKeeps(sha: Sha256, trace: seq<Event>, r: Record, e: nat, x: Execution, answer: Answer)
    requires x.intent == r.intent && RecordInv(sha, trace, x.id, r) && PointInv(trace, r, e, x)
    requires OnAnswer(e, x, answer).Some?
    ensures EffectInv(sha, trace, r, e, x, OnAnswer(e, x, answer).value)
  {
    hide RecordInv, EffectInv, AtWork, Before, CheckedBefore;
    match x.point
    case AwaitPrepare => PrepareAnswerKeeps(sha, trace, r, e, x, answer);
    case AwaitReconcile => ReconcileAnswerKeeps(sha, trace, r, e, x, answer);
    case AwaitExpiry => ExpiryAnswerKeeps(sha, trace, r, e, x, answer);
    case CallSubmit => SubmitCallKeeps(sha, trace, r, e, x, answer);
    case AwaitSubmit => SubmitAnswerKeeps(sha, trace, r, e, x, answer);
  }

  // --------------------------------------------------------- durable writes

  /** A write by an execution goes through exactly when its method would accept the
      record; the read before it never fails. */
  lemma ReadsBack(sha: Sha256, journal: Journal, trace: seq<Event>, id: Text, change: Change, now: nat)
    requires id in journal && RecordInv(sha, trace, id, journal[id])
    ensures GetById(sha, journal, id) == Ok(journal[id])
    ensures UpdateById(sha, journal, id, change, now) == Apply(journal[id], change, now)
  {
    hide ValidPersisted;
  }

  /** The written record stays valid and fits the trace. */
  lemma WriteKeepsRecord(sha: Sha256, trace: seq<Event>, r: Record, s: Record, id: Text, events: seq<Event>)
    requires RecordInv(sha, trace, id, r) && Evolves(r, s)
    requires HasAnyPreparedField(s) ==> ValidPreparedFields(s)
    requires HasAnyPreparedField(s) <==> NeedsPrepared(s.phase)
    requires !r.phase.AwaitingApproval? && !r.phase.Declined?
    requires s.phase.Submitted? ==> AcceptedBefore(trace, |trace|, id, PreparedOf(s))
    requires s.result.Some? ==> s.phase.Submitted? && s.result.value == BuildResult(s.intent, s.txid.value, s.metadata)
    ensures RecordInv(sha, AfterTrace(trace, s, id, events), id, s)
  {
    hide Fingerprint, BuildResult, ValidIntent, ValidPreparedFields;
    var after := AfterTrace(trace, s, id, events);
    assert forall k :: 0 <= k < |trace| ==> after[k] == trace[k];
    assert after[|trace|] == Durable(id, s);
    if NeedsPrepared(s.phase) {
      assert Holds(s, PreparedOf(s)) by {
        PreparedFieldsHold(s);
      }
    }
  }

  lemma PreparedFieldsHold(s: Record)
    requires ValidPreparedFields(s) && NeedsPrepared(s.phase)
    ensures HasPrepared(s) && Holds(s, PreparedOf(s))
  {
  }

  /** The trace after an act that writes record s. */
  function AfterTrace(trace: seq<Event>, s: Record, id: Text, events: seq<Event>): seq<Event> {
    trace + ([Durable(id, s)] + events)
  }

  lemma DurableEventHolds(trace: seq<Event>, s: Record, id: Text, events: seq<Event>)
    ensures NewEventInv(s, AfterTrace(trace, s, id, events), |trace|, id)
  {
    assert AfterTrace(trace, s, id, events)[|trace|] == Durable(id, s);
  }

  /** The pieces of the invariant after a write that goes through. */
  lemma WriteKeeps(sha: Sha256, trace: seq<Event>, after: seq<Event>, r: Record, s: Record, e: nat, x: Execution,
                   eff: Effect)
    requires Evolves(r, s) && eff.write == Some(s) && after == AfterTrace(trace, s, x.id, eff.events)
    requires RecordInv(sha, after, x.id, s) && PointInv(after, s, e, eff.next)
    requires eff.next.id == x.id && eff.next.intent == x.intent
    requires IsActive(eff.next.point) || eff.next.point.Finished?
    requires r.result.None?
    requires forall i :: |trace| < i < |after| ==> NewEventInv(s, after, i, x.id)
    requires forall i, j :: 0 <= i < j < |eff.events| && eff.events[i].Returned? ==> !IsActivity(eff.events[j], x.id)
    ensures EffectInv(sha, trace, r, e, x, eff)
  {
    hide RecordInv, PointInv, IsActive, IsActivity, Evolves, NewEventInv;
    DurableEventHolds(trace, s, x.id, eff.events);
    assert EventsOf(eff) == [Durable(x.id, s)] + eff.events;
  }

  /** The facts about an unprepared record. */
  lemma UnpreparedFacts(sha: Sha256, trace: seq<Event>, id: Text, r: Record)
    requires RecordInv(sha, trace, id, r) && Unprepared(r)
    ensures !HasAnyPreparedField(r) && r.result.None?
  {
    hide Fingerprint, BuildResult, DurableBefore, AcceptedBefore, Before, ValidIntent;
  }

  /** A write before the transaction is prepared. */
  lemma EarlyWriteKeeps(sha: Sha256, trace: seq<Event>, r: Record, e: nat, x: Execution, change: Change, now: nat)
    requires x.intent == r.intent && RecordInv(sha, trace, x.id, r) && Unprepared(r)
    requires change.ToPreparing? || change.ToFailed?
    ensures Apply(r, change, now).Ok?
    ensures var s := Apply(r, change, now).value;
            EffectInv(sha, trace, r, e, x, AfterWrite(e, x, change, s).(write := Some(s)))
  {
    hide RecordInv, EffectInv, ValidPreparedFields;
    UnpreparedFacts(sha, trace, x.id, r);
    var s := Apply(r, change, now).value;
    var eff := AfterWrite(e, x, change, s).(write := Some(s));
    var after := AfterTrace(trace, s, x.id, eff.events);
    assert after[|trace| + 1] == eff.events[0];
    WriteKeepsRecord(sha, trace, r, s, x.id, eff.events);
    WriteKeeps(sha, trace, after, r, s, e, x, eff);
  }

  /** The write that makes the prepared transaction durable. */
  lemma PreparedWriteKeeps(sha: Sha256, trace: seq<Event>, r: Record, e: nat, x: Execution, p: Prepared, now: nat)
    requires x.intent == r.intent && RecordInv(sha, trace, x.id, r) && Unprepared(r) && ValidPrepared(p)
    ensures Apply(r, ToPrepared(p), now).Ok?
    ensures var s := Apply(r, ToPrepared(p), now).value;
            EffectInv(sha, trace, r, e, x, AfterWrite(e, x, ToPrepared(p), s).(write := Some(s)))
  {
    hide RecordInv, EffectInv, ValidRaw, ValidTxid;
    UnpreparedFacts(sha, trace, x.id, r);
    var s := Apply(r, ToPrepared(p), now).value;
    var eff := AfterWrite(e, x, ToPrepared(p), s).(write := Some(s));
    var after := AfterTrace(trace, s, x.id, eff.events);
    assert eff.events == [PreparedHere(e, x.id, p)];
    assert after[|trace| + 1] == PreparedHere(e, x.id, p);
    WriteKeepsRecord(sha, trace, r, s, x.id, eff.events);
    WriteKeeps(sha, trace, after, r, s, e, x, eff);
  }

  lemma SettledFields(sha: Sha256, trace: seq<Event>, id: Text, r: Record)
    requires RecordInv(sha, trace, id, r) && NeedsPrepared(r.phase)
    ensures ValidPreparedFields(r) && HasPrepared(r)
  {
    hide Fingerprint, BuildResult, DurableBefore, AcceptedBefore, Before, ValidIntent;
  }

  lemma LateWriteApplies(r: Record, x: Execution, change: Change, now: nat)
    requires AtWork(r, x) && ValidPreparedFields(r) && r.result.None?
    requires change.ToUnknown? || change.ToRejected? || change.ToExpired? || change.ToSubmitted?
    ensures Apply(r, change, now).Ok?
    ensures var s := Apply(r, change, now).value;
            && Evolves(r, s) && SamePrepared(r, s) && s.result == r.result && HasPrepared(r) && HasPrepared(s)
            && s.phase == match change
                          case ToUnknown(_) => OutcomeUnknown
                          case ToRejected(_) => Rejected
                          case ToSubmitted => Submitted
                          case _ => Expired
  {
  }

  /** A write after submission failed or was given up; the execution then throws. */
  lemma FailureWriteKeeps(sha: Sha256, trace: seq<Event>, r: Record, e: nat, x: Execution, change: Change, now: nat)
    requires x.intent == r.intent && RecordInv(sha, trace, x.id, r) && AtWork(r, x)
    requires change.ToUnknown? || change.ToRejected? || change.ToExpired?
    ensures Apply(r, change, now).Ok?
    ensures var s := Apply(r, change, now).value;
            EffectInv(sha, trace, r, e, x, AfterWrite(e, x, change, s).(write := Some(s)))
  {
    hide RecordInv, EffectInv, Holds, Apply, Evolves, PreparedOf, ValidPrepared;
    WorkFacts(sha, trace, r, x);
    SettledFields(sha, trace, x.id, r);
    LateWriteApplies(r, x, change, now);
    var s := Apply(r, change, now).value;
    var eff := AfterWrite(e, x, change, s).(write := Some(s));
    var after := AfterTrace(trace, s, x.id, eff.events);
    assert after[|trace| + 1] == eff.events[0];
    WriteKeepsRecord(sha, trace, r, s, x.id, eff.events);
    WriteKeeps(sha, trace, after, r, s, e, x, eff);
  }

  /** The write that marks the intent submitted. */
  lemma AcceptedWriteKeeps(sha: Sha256, trace: seq<Event>, r: Record, e: nat, x: Execution, now: nat)
    requires x.intent == r.intent && RecordInv(sha, trace, x.id, r) && AtWork(r, x)
    requires AcceptedBefore(trace, |trace|, x.id, x.prepared.value)
    ensures Apply(r, ToSubmitted, now).Ok?
    ensures var s := Apply(r, ToSubmitted, now).value;
            EffectInv(sha, trace, r, e, x, AfterWrite(e, x, ToSubmitted, s).(write := Some(s)))
  {
    hide RecordInv, EffectInv, Apply, Evolves, ValidPrepared, BuildResult, AcceptedBefore;
    WorkFacts(sha, trace, r, x);
    SettledFields(sha, trace, x.id, r);
    LateWriteApplies(r, x, ToSubmitted, now);
    var s := Apply(r, ToSubmitted, now).value;
    assert Evolves(r, s) && PreparedOf(s) == PreparedOf(r) == x.prepared.value;
    var eff := AfterWrite(e, x, ToSubmitted, s).(write := Some(s));
    WriteKeepsRecord(sha, trace, r, s, x.id, eff.events);
    EvolvesKeepsIntent(r, s);
    WriteKeeps(sha, trace, AfterTrace(trace, s, x.id, eff.events), r, s, e, x, eff);
  }

  lemma EvolvesKeepsIntent(r: Record, s: Record)
    requires Evolves(r, s)
    ensures s.intent == r.intent
  {
  }

  /** The write of the result. */
  lemma ResultWriteKeeps(sha: Sha256, trace: seq<Event>, r: Record, e: nat, x: Execution, result: Fields, now: nat)
    requires x.intent == r.intent && RecordInv(sha, trace, x.id, r)
    requires r.phase.Submitted? && r.result.None? && result == BuildResult(r.intent, r.txid.GetOr([]), r.metadata)
    ensures Apply(r, ToCompleted(result), now).Ok?
    ensures var s := Apply(r, ToCompleted(result), now).value;
            EffectInv(sha, trace, r, e, x, AfterWrite(e, x, ToCompleted(result), s).(write := Some(s)))
  {
    hide RecordInv, EffectInv, ValidPrepared, DurableBefore, Before, CheckedBefore, BuildResult;
    SettledFields(sha, trace, x.id, r);
    var s := Apply(r, ToCompleted(result), now).value;
    var eff := AfterWrite(e, x, ToCompleted(result), s).(write := Some(s));
    var after := AfterTrace(trace, s, x.id, eff.events);
    assert eff.events == [Returned(e, x.id, result)];
    assert after[|trace| + 1] == Returned(e, x.id, result);
    assert PreparedOf(s) == PreparedOf(r);
    SubmittedAccepted(sha, trace, x.id, r);
    WriteKeepsRecord(sha, trace, r, s, x.id, eff.events);
    WriteKeeps(sha, trace, after, r, s, e, x, eff);
  }

  lemma SubmittedAccepted(sha: Sha256, trace: seq<Event>, id: Text, r: Record)
    requires RecordInv(sha, trace, id, r) && r.phase.Submitted? && HasPrepared(r)
    ensures AcceptedBefore(trace, |trace|, id, PreparedOf(r))
  {
    hide Fingerprint, BuildResult, DurableBefore, AcceptedBefore, Before, ValidIntent, ValidPrepared;
  }

  lemma OnWriteApplies(sha: Sha256, journal: Journal, trace: seq<Event>, e: nat, x: Execution, change: Change, now: nat)
    requires x.id in journal && RecordInv(sha, trace, x.id, journal[x.id])
    ensures match Apply(journal[x.id], change, now)
            case Ok(s) => OnWrite(sha, journal, e, x, change, now) == AfterWrite(e, x, change, s).(write := Some(s))
            case Err(failure) =>
              change.ToPrepared? ==> OnWrite(sha, journal, e, x, change, now) == Go(x, Writing(ToFailed(failure)), [])
  {
    hide Apply, AfterWrite, GetById;
    ReadsBack(sha, journal, trace, x.id, change, now);
  }

  lemma PreparedActKeeps(sha: Sha256, trace: seq<Event>, r: Record, e: nat, x: Execution, p: Prepared, now: nat,
                         eff: Effect)
    requires x.intent == r.intent && RecordInv(sha, trace, x.id, r) && Unprepared(r)
    requires match Apply(r, ToPrepared(p), now)
             case Ok(s) => eff == AfterWrite(e, x, ToPrepared(p), s).(write := Some(s))
             case Err(failure) => eff == Go(x, Writing(ToFailed(failure)), [])
    ensures EffectInv(sha, trace, r, e, x, eff)
  {
    hide RecordInv, EffectInv, ValidPrepared, AfterWrite;
    if ValidPrepared(p) {
      PreparedWriteKeeps(sha, trace, r, e, x, p, now);
    } else {
      GoKeeps(sha, trace, r, e, x, eff);
    }
  }

  lemma WriteActKeeps(sha: Sha256, journal: Journal, trace: seq<Event>, e: nat, x: Execution, change: Change, now: nat)
    requires Ready(sha, journal, trace, x) && x.point == Writing(change) && PointInv(trace, journal[x.id], e, x)
    ensures EffectInv(sha, trace, journal[x.id], e, x, OnWrite(sha, journal, e, x, change, now))
  {
    hide RecordInv, EffectInv, Apply, AfterWrite, OnWrite, AtWork, BuildResult, AcceptedBefore;
    var r := journal[x.id];
    OnWriteApplies(sha, journal, trace, e, x, change, now);
    match change
    case ToPreparing => EarlyWriteKeeps(sha, trace, r, e, x, change, now);
    case ToFailed(_) => EarlyWriteKeeps(sha, trace, r, e, x, change, now);
    case ToPrepared(p) => PreparedActKeeps(sha, trace, r, e, x, p, now, OnWrite(sha, journal, e, x, change, now));
    case ToCompleted(result) => ResultWriteKeeps(sha, trace, r, e, x, result, now);
    case ToSubmitted => AcceptedWriteKeeps(sha, trace, r, e, x, now);
    case _ => FailureWriteKeeps(sha, trace, r, e, x, change, now);
  }

  /** Every act of an execution inside runExclusive keeps the invariant. */
  lemma ReactKeeps(sha: Sha256, journal: Journal, trace: seq<Event>, e: nat, x: Execution, answer: Answer, now: nat)
    requires Ready(sha, journal, trace, x) && PointInv(trace, journal[x.id], e, x)
    requires React(sha, journal, e, x, answer, now).Some?
    ensures EffectInv(sha, trace, journal[x.id], e, x, React(sha, journal, e, x, answer, now).value)
  {
    hide RecordInv, EffectInv, PointInv, OnWrite, OnAnswer;
    if x.point.Writing? {
      WriteActKeeps(sha, journal, trace, e, x, x.point.change, now);
    } else {
      AnswerKeeps(sha, trace, journal[x.id], e, x, answer);
    }
  }
}
