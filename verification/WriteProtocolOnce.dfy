/** One execution of the write-intent protocol sends its transaction at most once. */
module WriteProtocolOnce {
  import opened JsText
  import opened WriteRecords
  import opened WriteProtocol
  import opened WriteProtocolInvariant
  import opened WriteProtocolSteps

  /** Where an execution that has called submit may stand. */
  predicate HasSubmitted(point: Point) {
    match point
    case AwaitSubmit => true
    case Writing(ToUnknown(_)) => true
    case Writing(ToRejected(_)) => true
    case Writing(ToSubmitted) => true
    case Writing(ToCompleted(_)) => true
    case Finished => true
    case Lost => true
    case _ => false
  }

  predicate IsSubmission(w: World, i: nat) { i < |w.trace| && w.trace[i].SubmitCalled? }

  /** Every submission is by an execution that stands behind it, and no execution has two. */
  ghost predicate Once(w: World) {
    && (forall i: nat {:trigger IsSubmission(w, i)} :: IsSubmission(w, i) ==>
          w.trace[i].exec in w.executions && HasSubmitted(w.executions[w.trace[i].exec].point))
    && (forall i: nat, j: nat {:trigger IsSubmission(w, i), IsSubmission(w, j)} ::
          IsSubmission(w, i) && IsSubmission(w, j) && w.trace[i].exec == w.trace[j].exec ==> i == j)
  }

  /** What one act must do: send at most once, and only if nothing was sent before. */
  predicate SendsOnce(e: nat, before: Point, eff: Effect) {
    && |eff.events| <= 2
    && (forall k :: 0 <= k < |eff.events| && eff.events[k].SubmitCalled? ==>
          |eff.events| == 1 && eff.events[k].exec == e && !HasSubmitted(before) && HasSubmitted(eff.next.point))
    && (HasSubmitted(before) ==> HasSubmitted(eff.next.point))
  }

  lemma EnterSendsNothing(sha: Sha256, journal: Journal, e: nat, x: Execution)
    requires x.point.Queued?
    ensures SendsOnce(e, x.point, OnEnter(sha, journal, e, x))
  {
    hide GetById, BuildResult, HasPrepared;
  }

  lemma WriteSendsNothing(sha: Sha256, journal: Journal, e: nat, x: Execution, change: Change, now: nat)
    requires x.point == Writing(change)
    ensures SendsOnce(e, x.point, OnWrite(sha, journal, e, x, change, now))
  {
    hide UpdateById, BuildResult;
  }

  lemma AnswerSendsOnce(e: nat, x: Execution, answer: Answer)
    requires OnAnswer(e, x, answer).Some?
    ensures SendsOnce(e, x.point, OnAnswer(e, x, answer).value)
  {
  }

  lemma ReactSendsOnce(sha: Sha256, journal: Journal, e: nat, x: Execution, answer: Answer, now: nat)
    requires React(sha, journal, e, x, answer, now).Some?
    ensures SendsOnce(e, x.point, React(sha, journal, e, x, answer, now).value)
  {
    hide OnWrite, OnAnswer, SendsOnce;
    if x.point.Writing? {
      WriteSendsNothing(sha, journal, e, x, x.point.change, now);
    } else {
      AnswerSendsOnce(e, x, answer);
    }
  }

  lemma ActKeepsOnce(w: World, e: nat, eff: Effect)
    requires Once(w) && e in w.executions && SendsOnce(e, w.executions[e].point, eff)
    ensures Once(Act(w, e, eff))
  {
    var v := Act(w, e, eff);
    assert v.executions == w.executions[e := eff.next];
    TraceAfter(w, e, eff);
    hide Act, HasSubmitted;
    forall i: nat | IsSubmission(v, i)
      ensures i < |w.trace| ==> IsSubmission(w, i) && w.trace[i] == v.trace[i]
      ensures i >= |w.trace| ==> i == |v.trace| - 1 && v.trace[i].exec == e && !HasSubmitted(w.executions[e].point)
                                 && HasSubmitted(eff.next.point)
    {
      if i >= |w.trace| {
        var start := |EventsOf(eff)| - |eff.events|;
        assert v.trace[i] == EventsOf(eff)[i - |w.trace|];
        assert EventsOf(eff)[i - |w.trace|] == eff.events[i - |w.trace| - start];
      }
    }
  }

  predicate NoSubmission(events: seq<Event>) { forall k :: 0 <= k < |events| ==> !events[k].SubmitCalled? }

  /** More events without a submission, and executions that go on or are lost. */
  lemma OthersKeepOnce(w: World, v: World, more: seq<Event>)
    requires Once(w) && v.trace == w.trace + more && NoSubmission(more)
    requires forall e :: e in w.executions ==> e in v.executions
    requires forall e :: e in w.executions && HasSubmitted(w.executions[e].point) ==>
               HasSubmitted(v.executions[e].point)
    ensures Once(v)
  {
    hide HasSubmitted;
    forall i: nat | IsSubmission(v, i)
      ensures IsSubmission(w, i) && w.trace[i] == v.trace[i]
    {
    }
  }

  lemma PutKeepsOnce(w: World, id: Text, r: Record, events: seq<Event>)
    requires Once(w) && NoSubmission(events)
    ensures Once(Put(w, id, r, events))
  {
    hide Once, HasSubmitted;
    var v := Put(w, id, r, events);
    assert v.trace == w.trace + Added(id, r, events);
    OthersKeepOnce(w, v, Added(id, r, events));
  }

  lemma CrashKeepsOnce(w: World, v: World)
    requires Once(w)
    requires v == World(w.journal, map e | e in w.executions :: Lose(w.executions[e]), map[], w.trace + [Crashed])
    ensures Once(v)
  {
    OthersKeepOnce(w, v, [Crashed]);
  }

  lemma StepKeepsOnce(sha: Sha256, w: World, a: Action)
    requires Once(w)
    ensures Once(Step(sha, w, a))
  {
    hide Once, Act, Put, Reserve, Approve, Decline, GetById, OnEnter, React, SendsOnce, HasSubmitted;
    match a
    case ReserveCall(key, intent, now) =>
      if Reserve(sha, w.journal, key, intent, now).Ok? {
        PutKeepsOnce(w, sha(key), Reserve(sha, w.journal, key, intent, now).value, []);
      }
    case ApproveCall(id, fingerprint, now) =>
      if GetById(sha, w.journal, id).Ok? && Approve(GetById(sha, w.journal, id).value, fingerprint, now).Ok? {
        var s := Approve(GetById(sha, w.journal, id).value, fingerprint, now).value;
        PutKeepsOnce(w, id, s, [WasApproved(id, fingerprint)]);
      }
    case DeclineCall(id, now) =>
      if GetById(sha, w.journal, id).Ok? && Decline(GetById(sha, w.journal, id).value, now).Ok? {
        PutKeepsOnce(w, id, Decline(GetById(sha, w.journal, id).value, now).value, [WasDeclined(id)]);
      }
    case ExecuteCall(e, id) =>
      var v := Step(sha, w, a);
      assert v.trace == w.trace + [];
      OthersKeepOnce(w, v, []);
    case Enter(e) =>
      if e in w.executions && w.executions[e].point.Queued? {
        EnterSendsNothing(sha, w.journal, e, w.executions[e]);
        ActKeepsOnce(w, e, OnEnter(sha, w.journal, e, w.executions[e]));
      }
    case Continue(e, answer, now) =>
      if e in w.executions && React(sha, w.journal, e, w.executions[e], answer, now).Some? {
        ReactSendsOnce(sha, w.journal, e, w.executions[e], answer, now);
        ActKeepsOnce(w, e, React(sha, w.journal, e, w.executions[e], answer, now).value);
      }
    case Crash => CrashKeepsOnce(w, Step(sha, w, a));
  }

  /** No execution calls submit twice, in any run: whatever the chain answers, and even
      when the outcome stays unknown, sending the transaction again takes another call
      of execute. */
  lemma OneSubmissionPerExecution(sha: Sha256, w: World, i: nat, j: nat)
    requires Reached(sha, w)
    requires i < |w.trace| && w.trace[i].SubmitCalled?
    requires j < |w.trace| && w.trace[j].SubmitCalled? && w.trace[i].exec == w.trace[j].exec
    ensures i == j
  {
    hide Step;
    var good := iset u: World | Once(u);
    hide Once;
    forall u: World, a | u in good
      ensures Step(sha, u, a) in good
    {
      StepKeepsOnce(sha, u, a);
    }
    StartIsOnce();
    assert Closed(sha, good) && START in good;
    SubmissionsDiffer(w, i, j);
  }

  lemma StartIsOnce()
    ensures Once(START)
  {
  }

  lemma SubmissionsDiffer(w: World, i: nat, j: nat)
    requires Once(w) && IsSubmission(w, i) && IsSubmission(w, j) && w.trace[i].exec == w.trace[j].exec
    ensures i == j
  {
  }
}
