/** The write-intent protocol is not stuck: an intent that may be executed has a run
    that prepares, submits and completes it. */
module WriteProtocolProgress {
  import opened JsText
  import opened WriteRecords
  import opened WriteProtocol
  import opened WriteProtocolInvariant
  import opened WriteProtocolSteps
  import opened WriteProtocolTheorems

  /** Execution e is at this point of its work on the intent, whose record is r. */
  predicate At(w: World, e: nat, x: Execution, r: Record) {
    e in w.executions && w.executions[e] == x && x.id in w.journal && w.journal[x.id] == r
  }

  lemma LeadsOn(sha: Sha256, w: World, u: World, v: World)
    requires Leads(sha, w, u) && Leads(sha, u, v)
    ensures Leads(sha, w, v)
  {
    hide Closed;
  }

  /** An execution acts in a reached world, and the world after it is reached. */
  lemma Acts(sha: Sha256, w: World, e: nat, x: Execution, r: Record, answer: Answer, now: nat, eff: Effect)
    returns (v: World)
    requires Reached(sha, w) && At(w, e, x, r)
    requires React(sha, w.journal, e, x, answer, now) == Some(eff) && eff.next.id == x.id
    ensures v == Step(sha, w, Continue(e, answer, now))
    ensures Reached(sha, v) && Leads(sha, w, v) && At(v, e, eff.next, RecordAfter(r, eff))
    ensures v.trace == w.trace + EventsOf(eff)
  {
    v := Step(sha, w, Continue(e, answer, now));
    ContinueStep(sha, w, e, answer, now);
    OneStep(sha, w, Continue(e, answer, now));
    hide Step, Reached, Leads, React, Act, EventsOf;
    TraceAfter(w, e, eff);
    JournalAfter(w, e, eff);
  }

  /** A write that the record allows takes place. */
  lemma Writes(sha: Sha256, w: World, e: nat, x: Execution, r: Record, now: nat, s: Record) returns (v: World)
    requires Reached(sha, w) && At(w, e, x, r) && x.point.Writing? && Apply(r, x.point.change, now) == Ok(s)
    ensures var eff := AfterWrite(e, x, x.point.change, s);
            && v == Step(sha, w, Continue(e, Says(true), now))
            && Reached(sha, v) && Leads(sha, w, v) && At(v, e, eff.next, s)
            && v.trace == w.trace + [Durable(x.id, s)] + eff.events
  {
    hide Step, Reached, Leads, React, Apply, AfterWrite, GetById;
    var eff := AfterWrite(e, x, x.point.change, s).(write := Some(s));
    JournalStaysReadable(sha, w, x.id);
    AfterSameId(e, x, x.point.change, s);
    WriteEffect(sha, w.journal, e, x, r, now, s);
    v := Acts(sha, w, e, x, r, Says(true), now, eff);
    assert w.trace + EventsOf(eff) == w.trace + [Durable(x.id, s)] + eff.events;
  }

  lemma WriteEffect(sha: Sha256, journal: Journal, e: nat, x: Execution, r: Record, now: nat, s: Record)
    requires GetById(sha, journal, x.id) == Ok(r) && x.point.Writing? && Apply(r, x.point.change, now) == Ok(s)
    ensures React(sha, journal, e, x, Says(true), now) == Some(AfterWrite(e, x, x.point.change, s).(write := Some(s)))
  {
    hide GetById, Apply, AfterWrite;
  }

  lemma AfterSameId(e: nat, x: Execution, change: Change, s: Record)
    ensures AfterWrite(e, x, change, s).next.id == x.id
  {
  }

  /** An answer that the execution waits for is taken. */
  lemma Takes(sha: Sha256, w: World, e: nat, x: Execution, r: Record, answer: Answer, eff: Effect) returns (v: World)
    requires Reached(sha, w) && At(w, e, x, r) && !x.point.Writing?
    requires OnAnswer(e, x, answer) == Some(eff) && eff.write.None? && eff.next.id == x.id
    ensures v == Step(sha, w, Continue(e, answer, 0))
    ensures Reached(sha, v) && Leads(sha, w, v) && At(v, e, eff.next, r) && v.trace == w.trace + eff.events
  {
    hide Step, Reached, Leads, OnAnswer;
    v := Acts(sha, w, e, x, r, answer, 0, eff);
    assert EventsOf(eff) == eff.events;
  }

  lemma Enters(sha: Sha256, w: World, e: nat, x: Execution, r: Record) returns (v: World)
    requires Reached(sha, w) && At(w, e, x, r) && x.point.Queued? && x.id !in w.holder && Unprepared(r)
    ensures v == Step(sha, w, Enter(e))
    ensures Reached(sha, v) && Leads(sha, w, v) && At(v, e, x.(point := Writing(ToPreparing)), r)
  {
    hide Step, Reached, Leads, GetById, HasPrepared, OnEnter, Act, Unprepared;
    v := Step(sha, w, Enter(e));
    OneStep(sha, w, Enter(e));
    JournalStaysReadable(sha, w, x.id);
    NothingPrepared(sha, w, x.id);
    EnterEffect(sha, w, e, x, r);
    JournalAfter(w, e, Go(x, Writing(ToPreparing), []));
  }

  lemma EnterEffect(sha: Sha256, w: World, e: nat, x: Execution, r: Record)
    requires At(w, e, x, r) && x.point.Queued? && x.id !in w.holder
    requires GetById(sha, w.journal, x.id) == Ok(r) && Unprepared(r) && !HasPrepared(r)
    ensures Step(sha, w, Enter(e)) == Act(w, e, Go(x, Writing(ToPreparing), []))
  {
    hide GetById, HasPrepared, OnEnter, Act;
    EnterGoes(sha, w.journal, e, x, r);
  }

  lemma EnterGoes(sha: Sha256, journal: Journal, e: nat, x: Execution, r: Record)
    requires GetById(sha, journal, x.id) == Ok(r) && Unprepared(r) && !HasPrepared(r)
    ensures OnEnter(sha, journal, e, x) == Go(x, Writing(ToPreparing), [])
  {
    hide GetById, HasPrepared, OnPrepared, BuildResult;
  }

  lemma NothingPrepared(sha: Sha256, w: World, id: Text)
    requires Reached(sha, w) && id in w.journal && Unprepared(w.journal[id])
    ensures !HasPrepared(w.journal[id])
  {
    hide Inv, Reached, AcceptedBefore, DurableBefore, Before, ValidPersisted, BuildResult;
    ReachedInv(sha, w);
    RecordOf(sha, w, id);
  }

  /** From any reached world, an execution that waits for an approved intent nobody
      works on can prepare, submit and complete it, whatever transaction is prepared
      for it. */
  lemma ApprovedIntentCanComplete(sha: Sha256, w: World, e: nat, p: Prepared) returns (v: World)
    requires Reached(sha, w) && e in w.executions && w.executions[e].point.Queued? && ValidPrepared(p)
    requires var id := w.executions[e].id; id in w.journal && id !in w.holder && Unprepared(w.journal[id])
    ensures Leads(sha, w, v)
    ensures var x := w.executions[e];
            && x.id in v.journal && v.journal[x.id].result.Some?
            && IsResultOf(x.intent, p.txid, p.metadata, v.journal[x.id].result.value)
            && SubmitCalled(e, x.id, p) in v.trace
            && Returned(e, x.id, v.journal[x.id].result.value) in v.trace
  {
    hide Step, Reached, Leads, IsResultOf, ValidPrepared, Unprepared;
    var x := w.executions[e];
    var r := w.journal[x.id];
    var u := Enters(sha, w, e, x, r);
    var s;
    u, s := Prepares(sha, w, u, e, x.(point := Writing(ToPreparing)), r, p);
    HoldsTruthy(s, p);
    var x1 := x.(point := CallSubmit, prepared := Some(p), preparedHere := true);
    u := Submits(sha, w, u, e, x1, s, p);
    v := Completes(sha, w, u, e, x1.(point := Writing(ToSubmitted)), s, p);
  }

  /** The part of a run up to the durable record of the prepared transaction. */
  lemma Prepares(sha: Sha256, w: World, u: World, e: nat, x: Execution, r: Record, p: Prepared)
    returns (v: World, s: Record)
    requires Reached(sha, u) && Leads(sha, w, u) && At(u, e, x, r)
    requires x.point == Writing(ToPreparing) && Unprepared(r) && ValidPrepared(p)
    ensures Reached(sha, v) && Leads(sha, w, v) && Holds(s, p)
    ensures At(v, e, x.(point := CallSubmit, prepared := Some(p), preparedHere := true), s)
  {
    hide Step, Reached, Leads, ValidPrepared;
    var t := r.(phase := Preparing, updatedAt := if r.phase.Preparing? then r.updatedAt else 0);
    var u1 := Writes(sha, u, e, x, r, 0, t);
    LeadsOn(sha, w, u, u1);
    var x1 := x.(point := AwaitPrepare);
    var eff := Go(x1, Writing(ToPrepared(p)), []);
    var u2 := Takes(sha, u1, e, x1, t, PrepareAnswer(p), eff);
    LeadsOn(sha, w, u1, u2);
    var x2 := x1.(point := Writing(ToPrepared(p)));
    s := t.(rawTransaction := Some(p.rawTransaction), txid := Some(p.txid), validUntilBlock := Some(p.validUntilBlock),
            metadata := p.metadata, phase := Submitting, updatedAt := 0);
    v := Writes(sha, u2, e, x2, t, 0, s);
    LeadsOn(sha, w, u2, v);
  }

  /** The part from the submission to the answer of the network. */
  lemma Submits(sha: Sha256, w: World, u: World, e: nat, x: Execution, s: Record, p: Prepared) returns (v: World)
    requires Reached(sha, u) && Leads(sha, w, u) && At(u, e, x, s)
    requires x.point == CallSubmit && x.prepared == Some(p)
    ensures Reached(sha, v) && Leads(sha, w, v) && At(v, e, x.(point := Writing(ToSubmitted)), s)
    ensures u.trace <= v.trace && SubmitCalled(e, x.id, p) in v.trace
  {
    hide Step, Reached, Leads, Lower;
    var call := Go(x, AwaitSubmit, [SubmitCalled(e, x.id, p)]);
    var u1 := Takes(sha, u, e, x, s, Says(true), call);
    LeadsOn(sha, w, u, u1);
    var x1 := x.(point := AwaitSubmit);
    var heard := Go(x1, Writing(ToSubmitted), [SubmitReturned(e, x.id, p.txid)]);
    v := Takes(sha, u1, e, x1, s, TxidAnswer(p.txid), heard);
    LeadsOn(sha, w, u1, v);
    assert v.trace[|u.trace|] == SubmitCalled(e, x.id, p);
  }

  /** The second trace continues the first without a submission. */
  predicate NothingSubmitted(before: seq<Event>, after: seq<Event>) {
    before <= after && forall k :: |before| <= k < |after| ==> !after[k].SubmitCalled?
  }

  /** The part from there to the result. */
  lemma Completes(sha: Sha256, w: World, u: World, e: nat, x: Execution, s: Record, p: Prepared) returns (v: World)
    requires Reached(sha, u) && Leads(sha, w, u) && At(u, e, x, s) && Truthy(s.rawTransaction) && Truthy(s.txid)
    requires x.point == Writing(ToSubmitted) && x.prepared == Some(p)
    ensures Leads(sha, w, v) && NothingSubmitted(u.trace, v.trace)
    ensures x.id in v.journal && v.journal[x.id].result.Some?
    ensures var result := v.journal[x.id].result.value;
            IsResultOf(x.intent, p.txid, p.metadata, result) && Returned(e, x.id, result) in v.trace
  {
    BuildsResult(x.intent, p.txid, p.metadata);
    hide Step, Reached, Leads, BuildResult, IsResultOf, Truthy;
    var result := BuildResult(x.intent, p.txid, p.metadata);
    var s1 := s.(phase := Submitted, error := None, updatedAt := 0);
    var u1 := Writes(sha, u, e, x, s, 0, s1);
    LeadsOn(sha, w, u, u1);
    var x1 := x.(point := Writing(ToCompleted(result)));
    var s2 := s1.(result := Some(result), updatedAt := 0);
    v := Writes(sha, u1, e, x1, s1, 0, s2);
    LeadsOn(sha, w, u1, v);
    assert v.trace[|v.trace| - 1] == Returned(e, x.id, result);
  }

  lemma HoldsTruthy(s: Record, p: Prepared)
    requires Holds(s, p) && ValidPrepared(p)
    ensures Truthy(s.rawTransaction) && Truthy(s.txid)
  {
  }

  // ------------------------------------------------------ after an interruption

  predicate Interrupted(r: Record) { r.phase.Submitting? || r.phase.OutcomeUnknown? }

  lemma StillPrepared(sha: Sha256, w: World, id: Text)
    requires Reached(sha, w) && id in w.journal && Interrupted(w.journal[id])
    ensures HasPrepared(w.journal[id]) && Holds(w.journal[id], PreparedOf(w.journal[id]))
    ensures ValidPrepared(PreparedOf(w.journal[id]))
  {
    hide Inv, Reached, RecordInv, ValidRaw, ValidTxid;
    ReachedInv(sha, w);
    RecordOf(sha, w, id);
    SettledFields(sha, w.trace, id, w.journal[id]);
    PreparedFieldsHold(w.journal[id]);
  }

  /** An execution as it asks the chain about the transaction of the record. */
  function Asking(x: Execution, r: Record): Execution
    requires HasPrepared(r)
  {
    x.(point := AwaitReconcile, prepared := Some(PreparedOf(r)), preparedHere := false)
  }

  lemma EnterAsks(sha: Sha256, journal: Journal, e: nat, x: Execution, r: Record)
    requires GetById(sha, journal, x.id) == Ok(r) && Interrupted(r) && HasPrepared(r)
    ensures OnEnter(sha, journal, e, x)
            == Effect(None, Asking(x, r), [ReconcileCalled(e, x.id, PreparedOf(r).txid)])
  {
    hide GetById, HasPrepared, BuildResult, PreparedOf;
  }

  lemma EnterStep(sha: Sha256, w: World, e: nat, x: Execution)
    requires e in w.executions && w.executions[e] == x && x.point.Queued? && x.id !in w.holder
    ensures Step(sha, w, Enter(e)) == Act(w, e, OnEnter(sha, w.journal, e, x))
  {
    hide OnEnter, Act;
  }

  lemma Resumes(sha: Sha256, w: World, e: nat, x: Execution, r: Record) returns (v: World)
    requires Reached(sha, w) && At(w, e, x, r) && x.point.Queued? && x.id !in w.holder
    requires Interrupted(r) && HasPrepared(r)
    ensures v == Step(sha, w, Enter(e))
    ensures Reached(sha, v) && Leads(sha, w, v) && At(v, e, Asking(x, r), r)
    ensures v.trace == w.trace + [ReconcileCalled(e, x.id, PreparedOf(r).txid)]
  {
    hide Step, Reached, Leads, GetById, HasPrepared, OnEnter, Act, Interrupted, PreparedOf;
    v := Step(sha, w, Enter(e));
    OneStep(sha, w, Enter(e));
    JournalStaysReadable(sha, w, x.id);
    EnterAsks(sha, w.journal, e, x, r);
    EnterStep(sha, w, e, x);
    var eff := Effect(None, Asking(x, r), [ReconcileCalled(e, x.id, PreparedOf(r).txid)]);
    JournalAfter(w, e, eff);
    TraceAfter(w, e, eff);
    assert EventsOf(eff) == eff.events;
  }

  /** The chain is asked, and its answer is heard. */
  lemma Hears(sha: Sha256, w: World, u: World, e: nat, x: Execution, r: Record, p: Prepared, found: bool)
    returns (v: World)
    requires Reached(sha, u) && Leads(sha, w, u) && At(u, e, x, r) && x.point.AwaitReconcile? && x.prepared == Some(p)
    ensures Reached(sha, v) && Leads(sha, w, v)
    ensures At(v, e, x.(point := if found then Writing(ToSubmitted) else AwaitExpiry), r)
    ensures v.trace == u.trace + [Reconciled(e, x.id, p.txid, found)]
  {
    hide Step, Reached, Leads;
    var eff := Go(x, if found then Writing(ToSubmitted) else AwaitExpiry, [Reconciled(e, x.id, p.txid, found)]);
    v := Takes(sha, u, e, x, r, Says(found), eff);
    LeadsOn(sha, w, u, v);
  }

  lemma HearsExpiry(sha: Sha256, w: World, u: World, e: nat, x: Execution, r: Record, p: Prepared, expired: bool)
    returns (v: World)
    requires Reached(sha, u) && Leads(sha, w, u) && At(u, e, x, r) && x.point.AwaitExpiry? && x.prepared == Some(p)
    ensures Reached(sha, v) && Leads(sha, w, v)
    ensures At(v, e, x.(point := if expired then Writing(ToExpired) else CallSubmit), r)
    ensures v.trace == u.trace + [ExpiryChecked(e, x.id, p.validUntilBlock, expired)]
  {
    hide Step, Reached, Leads;
    var eff :=
      Go(x, if expired then Writing(ToExpired) else CallSubmit, [ExpiryChecked(e, x.id, p.validUntilBlock, expired)]);
    v := Takes(sha, u, e, x, r, Says(expired), eff);
    LeadsOn(sha, w, u, v);
  }

  lemma Expires(sha: Sha256, w: World, u: World, e: nat, x: Execution, r: Record) returns (v: World)
    requires Reached(sha, u) && Leads(sha, w, u) && At(u, e, x, r) && x.point == Writing(ToExpired)
    ensures Leads(sha, w, v) && x.id in v.journal && v.journal[x.id].phase.Expired?
    ensures v.trace == u.trace + [Durable(x.id, v.journal[x.id])] + [Threw(e, x.id, ExpiredUnobserved)]
  {
    hide Step, Reached, Leads;
    v := Writes(sha, u, e, x, r, 0, Expire(r, 0));
    LeadsOn(sha, w, u, v);
  }

  /** How the interrupted work on a transaction ends, by what the chain says of it. */
  ghost predicate SettledBy(w: World, v: World, e: nat, x: Execution, p: Prepared, found: bool, expired: bool) {
    && x.id in v.journal && Reconciled(e, x.id, p.txid, found) in v.trace
    && (found || !expired ==>
          && v.journal[x.id].result.Some? && IsResultOf(x.intent, p.txid, p.metadata, v.journal[x.id].result.value)
          && Returned(e, x.id, v.journal[x.id].result.value) in v.trace)
    && (!found && expired ==> v.journal[x.id].phase.Expired? && Threw(e, x.id, ExpiredUnobserved) in v.trace)
    && (found || expired ==> NothingSubmitted(w.trace, v.trace))
    && (!found && !expired ==> SubmitCalled(e, x.id, p) in v.trace)
  }

  /** The execution has asked the chain, and so far that is all. */
  ghost predicate Asked(sha: Sha256, w: World, u: World, e: nat, x: Execution, r: Record, p: Prepared, found: bool) {
    && Reached(sha, u) && Leads(sha, w, u) && At(u, e, x, r) && x.prepared == Some(p)
    && u.trace == w.trace + [ReconcileCalled(e, x.id, p.txid)] + [Reconciled(e, x.id, p.txid, found)]
  }

  lemma AskedInTrace(sha: Sha256, w: World, u: World, e: nat, x: Execution, r: Record, p: Prepared, found: bool,
                     trace: seq<Event>)
    requires Asked(sha, w, u, e, x, r, p, found) && u.trace <= trace
    ensures Reconciled(e, x.id, p.txid, found) in trace
    ensures NothingSubmitted(u.trace, trace) ==> NothingSubmitted(w.trace, trace)
  {
    hide Step, Reached, Leads;
    assert trace[|w.trace| + 1] == u.trace[|w.trace| + 1];
  }

  lemma FoundSettles(sha: Sha256, w: World, u: World, e: nat, x: Execution, r: Record, p: Prepared, expired: bool)
    returns (v: World)
    requires Asked(sha, w, u, e, x, r, p, true) && x.point == Writing(ToSubmitted)
    requires Holds(r, p) && ValidPrepared(p)
    ensures Leads(sha, w, v) && SettledBy(w, v, e, x, p, true, expired)
  {
    hide Step, Reached, Leads, IsResultOf, ValidPrepared, NothingSubmitted;
    HoldsTruthy(r, p);
    v := Completes(sha, w, u, e, x, r, p);
    StartsWith(u.trace, v.trace);
    AskedInTrace(sha, w, u, e, x, r, p, true, v.trace);
  }

  lemma StartsWith(before: seq<Event>, after: seq<Event>)
    requires NothingSubmitted(before, after)
    ensures before <= after
  {
  }

  lemma ExpiredSettles(sha: Sha256, w: World, u: World, e: nat, x: Execution, r: Record, p: Prepared) returns (v: World)
    requires Asked(sha, w, u, e, x, r, p, false) && x.point.AwaitExpiry?
    ensures Leads(sha, w, v) && SettledBy(w, v, e, x, p, false, true)
  {
    hide Step, Reached, Leads, IsResultOf;
    var u1 := HearsExpiry(sha, w, u, e, x, r, p, true);
    v := Expires(sha, w, u1, e, x.(point := Writing(ToExpired)), r);
    var last := Threw(e, x.id, ExpiredUnobserved);
    assert v.trace == u.trace + [ExpiryChecked(e, x.id, p.validUntilBlock, true), Durable(x.id, v.journal[x.id]), last];
    assert v.trace[|u.trace| + 2] == last;
    AskedInTrace(sha, w, u, e, x, r, p, false, v.trace);
  }

  lemma AbsentSettles(sha: Sha256, w: World, u: World, e: nat, x: Execution, r: Record, p: Prepared) returns (v: World)
    requires Asked(sha, w, u, e, x, r, p, false) && x.point.AwaitExpiry?
    requires Holds(r, p) && ValidPrepared(p)
    ensures Leads(sha, w, v) && SettledBy(w, v, e, x, p, false, false)
  {
    hide Step, Reached, Leads, IsResultOf, ValidPrepared, NothingSubmitted;
    HoldsTruthy(r, p);
    var u1 := HearsExpiry(sha, w, u, e, x, r, p, false);
    var u2 := Submits(sha, w, u1, e, x.(point := CallSubmit), r, p);
    v := Completes(sha, w, u2, e, x.(point := Writing(ToSubmitted)), r, p);
    StartsWith(u2.trace, v.trace);
    AskedInTrace(sha, w, u, e, x, r, p, false, v.trace);
  }

  /** From any reached world, an execution that waits for an intent whose transaction
      was prepared and perhaps sent, and whose work was then interrupted, can settle it
      whatever the chain says. If the transaction is found, the intent is completed with
      it and nothing is sent; if it is absent and expired, the intent expires and nothing
      is sent; otherwise the same transaction is sent and the intent completed with it. */
  lemma InterruptedIntentCanSettle(sha: Sha256, w: World, e: nat, found: bool, expired: bool) returns (v: World)
    requires Reached(sha, w) && e in w.executions && w.executions[e].point.Queued?
    requires var id := w.executions[e].id; id in w.journal && id !in w.holder && Interrupted(w.journal[id])
    ensures Leads(sha, w, v)
    ensures HasPrepared(w.journal[w.executions[e].id])
    ensures SettledBy(w, v, e, w.executions[e], PreparedOf(w.journal[w.executions[e].id]), found, expired)
  {
    hide Step, Reached, Leads, HasPrepared, PreparedOf, Interrupted, ValidPrepared, Holds, SettledBy;
    var x := w.executions[e];
    var r := w.journal[x.id];
    StillPrepared(sha, w, x.id);
    var p := PreparedOf(r);
    var u := Resumes(sha, w, e, x, r);
    u := Hears(sha, w, u, e, Asking(x, r), r, p, found);
    if found {
      v := FoundSettles(sha, w, u, e, Asking(x, r).(point := Writing(ToSubmitted)), r, p, expired);
    } else if expired {
      v := ExpiredSettles(sha, w, u, e, Asking(x, r).(point := AwaitExpiry), r, p);
    } else {
      v := AbsentSettles(sha, w, u, e, Asking(x, r).(point := AwaitExpiry), r, p);
    }
    var y := Asking(x, r).(point := if found then Writing(ToSubmitted) else AwaitExpiry);
    SameWork(w, v, e, y, x, p, found, expired);
  }

  /** Where the execution stands plays no part in how it ends. */
  lemma SameWork(w: World, v: World, e: nat, x: Execution, y: Execution, p: Prepared, found: bool, expired: bool)
    requires SettledBy(w, v, e, x, p, found, expired) && x.id == y.id && x.intent == y.intent
    ensures SettledBy(w, v, e, y, p, found, expired)
  {
    hide IsResultOf, NothingSubmitted;
  }
}
