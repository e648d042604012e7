/** `WriteOperationService` in the form it has: methods that read, check and rewrite
    the journal, and the operation that `execute` runs inside `runExclusive`. The
    operation is proved to be a run of the state machine of WriteProtocol, whatever
    happens at its awaits, so the theorems about runs are about this code. */
module WriteService {
  import opened JsText
  import opened CanonicalJson
  import opened WriteRecords
  import opened WriteProtocol
  import opened WriteProtocolInvariant
  import opened WriteProtocolSteps
  import opened WriteProtocolTheorems

  ghost function RunFrom(sha: Sha256, w: World, actions: seq<Action>): World
    decreases |actions|
  {
    if actions == [] then w
    else Step(sha, RunFrom(sha, w, actions[..|actions| - 1]), actions[|actions| - 1])
  }

  lemma {:induction false} RunFromAppends(sha: Sha256, w: World, a: seq<Action>, b: seq<Action>)
    ensures RunFrom(sha, w, a + b) == RunFrom(sha, RunFrom(sha, w, a), b)
    decreases |b|
  {
    hide Step;
    if b == [] {
      assert a + b == a;
    } else {
      RunFromAppends(sha, w, a, b[..|b| - 1]);
      assert (a + b)[..|a + b| - 1] == a + b[..|b| - 1];
    }
  }

  /** Some schedule of actions takes one world to the other. */
  ghost predicate EndsRun(sha: Sha256, w: World, v: World) { exists schedule :: v == RunFrom(sha, w, schedule) }

  /** A world leads to another exactly when some schedule of actions takes it there. */
  lemma LeadsBySchedule(sha: Sha256, w: World, v: World)
    ensures Leads(sha, w, v) <==> EndsRun(sha, w, v)
  {
    hide Step;
    if Leads(sha, w, v) {
      var ends := iset u: World | EndsRun(sha, w, u);
      forall u: World, a | u in ends
        ensures Step(sha, u, a) in ends
      {
        var schedule :| u == RunFrom(sha, w, schedule);
        var more := schedule + [a];
        assert more[..|more| - 1] == schedule;
        assert Step(sha, u, a) == RunFrom(sha, w, more);
      }
      assert w == RunFrom(sha, w, []);
      assert Closed(sha, ends) && w in ends;
    }
    if EndsRun(sha, w, v) {
      var schedule :| v == RunFrom(sha, w, schedule);
      RunFromLeads(sha, w, schedule);
    }
  }

  lemma {:induction false} RunFromLeads(sha: Sha256, w: World, schedule: seq<Action>)
    ensures Leads(sha, w, RunFrom(sha, w, schedule))
    decreases |schedule|
  {
    hide Step;
    if schedule != [] {
      RunFromLeads(sha, w, schedule[..|schedule| - 1]);
    }
  }

  /** An action that is not one of execution e, and not a crash of its process. */
  predicate IsForeign(a: Action, e: nat) {
    match a
    case ExecuteCall(d, _) => d != e
    case Enter(d) => d != e
    case Continue(d, _, _) => d != e
    case Crash => false
    case _ => true
  }

  /** Execution e is inside runExclusive. */
  predicate Inside(w: World, e: nat) {
    e in w.executions && w.executions[e].id in w.holder && w.holder[w.executions[e].id] == e
  }

  lemma ForeignActKeeps(w: World, e: nat, d: nat, eff: Effect)
    requires Inside(w, e) && d != e && eff.next.id != w.executions[e].id
    ensures Inside(Act(w, d, eff), e) && Act(w, d, eff).executions[e] == w.executions[e]
  {
  }

  lemma ReactSameId(sha: Sha256, journal: Journal, e: nat, x: Execution, answer: Answer, now: nat)
    requires React(sha, journal, e, x, answer, now).Some?
    ensures React(sha, journal, e, x, answer, now).value.next.id == x.id
  {
    hide UpdateById;
  }

  lemma EnterSameId(sha: Sha256, journal: Journal, e: nat, x: Execution)
    ensures OnEnter(sha, journal, e, x).next.id == x.id
  {
    hide GetById, BuildResult;
  }

  lemma ForeignStepKeeps(sha: Sha256, w: World, e: nat, a: Action)
    requires Inv(sha, w) && Inside(w, e) && IsForeign(a, e)
    ensures Inside(Step(sha, w, a), e) && Step(sha, w, a).executions[e] == w.executions[e]
  {
    hide Inv, Step, React, OnEnter, Act, Inside;
    match a
    case Enter(d) => ForeignEnterKeeps(sha, w, e, d);
    case Continue(d, answer, now) =>
      ContinueStep(sha, w, d, answer, now);
      if d in w.executions && React(sha, w.journal, d, w.executions[d], answer, now).Some? {
        ReactSameId(sha, w.journal, d, w.executions[d], answer, now);
        OnlyActiveReact(sha, w.journal, d, w.executions[d], answer, now);
        ActiveHolds(sha, w, d);
        OtherId(w, e, d);
        ForeignActKeeps(w, e, d, React(sha, w.journal, d, w.executions[d], answer, now).value);
      }
    case _ => ForeignCallKeeps(sha, w, e, a);
  }

  lemma OtherId(w: World, e: nat, d: nat)
    requires Inside(w, e) && Inside(w, d) && d != e
    ensures w.executions[d].id != w.executions[e].id
  {
  }

  lemma ForeignEnterKeeps(sha: Sha256, w: World, e: nat, d: nat)
    requires Inside(w, e) && d != e
    ensures Inside(Step(sha, w, Enter(d)), e) && Step(sha, w, Enter(d)).executions[e] == w.executions[e]
  {
    hide OnEnter, Act;
    if d in w.executions && w.executions[d].point.Queued? && w.executions[d].id !in w.holder {
      EnterSameId(sha, w.journal, d, w.executions[d]);
      ForeignActKeeps(w, e, d, OnEnter(sha, w.journal, d, w.executions[d]));
    }
  }

  lemma ForeignCallKeeps(sha: Sha256, w: World, e: nat, a: Action)
    requires Inside(w, e) && IsForeign(a, e) && !a.Enter? && !a.Continue?
    ensures Inside(Step(sha, w, a), e) && Step(sha, w, a).executions[e] == w.executions[e]
  {
    hide GetById, Reserve, Approve, Decline, React, OnEnter, Act;
  }

  lemma ActiveHolds(sha: Sha256, w: World, d: nat)
    requires Inv(sha, w) && d in w.executions && IsActive(w.executions[d].point)
    ensures Inside(w, d)
  {
    hide RecordInv, EventInv, Quiet, PointInv;
    assert ExecInv(w, d, w.executions[d]);
  }

  /** Whatever others do, an execution that waits inside runExclusive stays inside it
      and finds itself as it was. */
  lemma {:induction false} ForeignRunKeeps(sha: Sha256, w: World, e: nat, actions: seq<Action>)
    requires Inv(sha, w) && Inside(w, e) && forall a :: a in actions ==> IsForeign(a, e)
    ensures var v := RunFrom(sha, w, actions); Inv(sha, v) && Inside(v, e) && v.executions[e] == w.executions[e]
    decreases |actions|
  {
    hide Step, Inv, Inside, IsForeign;
    if actions != [] {
      var last := |actions| - 1;
      ForeignRunKeeps(sha, w, e, actions[..last]);
      var u := RunFrom(sha, w, actions[..last]);
      assert actions[last] in actions;
      ForeignStepKeeps(sha, u, e, actions[last]);
      StepKeepsInv(sha, u, actions[last]);
    }
  }

  /** What a journal is after a write that may have been refused. */
  function Written(journal: Journal, id: Text, r: Result<Record, Failure>): Journal {
    if r.Ok? then journal[id := r.value] else journal
  }

  lemma StartReached(sha: Sha256)
    ensures Reached(sha, START)
  {
  }

  // ---------------------------------------------------- steps of execution e

  /** The last event of the trace is the one that reports this outcome. */
  ghost predicate Reports(w: World, e: nat, id: Text, outcome: Result<Fields, Failure>) {
    && e in w.executions && w.executions[e].point.Finished? && w.trace != []
    && w.trace[|w.trace| - 1] == match outcome case Ok(result) => Returned(e, id, result) case Err(f) => Threw(e, id, f)
  }

  /** A result that is reported is that of the intent with its one transaction. */
  lemma ReportedResult(sha: Sha256, w: World, e: nat, id: Text, outcome: Result<Fields, Failure>)
    requires Reached(sha, w) && Reports(w, e, id, outcome) && outcome.Ok?
    ensures id in w.journal && w.journal[id].txid.Some?
    ensures IsResultOf(w.journal[id].intent, w.journal[id].txid.value, w.journal[id].metadata, outcome.value)
  {
    hide Reached, IsResultOf;
    SameResult(sha, w, |w.trace| - 1, |w.trace| - 1);
  }

  ghost predicate Acted(w: World, v: World, e: nat, eff: Effect) {
    && e in v.executions && v.executions[e] == eff.next
    && (eff.events != [] ==> v.trace != [] && v.trace[|v.trace| - 1] == eff.events[|eff.events| - 1])
    && (!eff.next.point.Finished? ==> Inside(v, e))
    && v.journal == if eff.write.Some? then w.journal[eff.next.id := eff.write.value] else w.journal
  }

  lemma ActActs(w: World, e: nat, eff: Effect)
    ensures Acted(w, Act(w, e, eff), e, eff)
  {
  }

  lemma EnterStep(sha: Sha256, w: World, e: nat)
    requires Reached(sha, w) && e in w.executions && w.executions[e].point.Queued? && w.executions[e].id !in w.holder
    ensures var v := Step(sha, w, Enter(e));
            Reached(sha, v) && Acted(w, v, e, OnEnter(sha, w.journal, e, w.executions[e]))
  {
    hide Reached, Leads, OnEnter, Act, Acted;
    OneStep(sha, w, Enter(e));
    ActActs(w, e, OnEnter(sha, w.journal, e, w.executions[e]));
  }

  lemma AnswerStep(sha: Sha256, w: World, e: nat, answer: Answer, now: nat)
    requires Reached(sha, w) && Inside(w, e) && !w.executions[e].point.Writing?
    requires OnAnswer(e, w.executions[e], answer).Some?
    ensures var v := Step(sha, w, Continue(e, answer, now));
            Reached(sha, v) && Acted(w, v, e, OnAnswer(e, w.executions[e], answer).value)
  {
    hide Reached, Leads, OnAnswer, Act, Acted;
    OneStep(sha, w, Continue(e, answer, now));
    ActActs(w, e, OnAnswer(e, w.executions[e], answer).value);
  }

  lemma WriteStep(sha: Sha256, w: World, e: nat, change: Change, now: nat)
    requires Reached(sha, w) && e in w.executions && w.executions[e].point == Writing(change)
    ensures var x := w.executions[e];
            var v := Step(sha, w, Continue(e, Says(true), now));
            && Reached(sha, v) && Acted(w, v, e, OnWrite(sha, w.journal, e, x, change, now))
            && v.journal == Written(w.journal, x.id, UpdateById(sha, w.journal, x.id, change, now))
  {
    hide Reached, Leads, UpdateById, Act, AfterWrite;
    OneStep(sha, w, Continue(e, Says(true), now));
    ActActs(w, e, OnWrite(sha, w.journal, e, w.executions[e], change, now));
    AfterWriteSameId(e, w.executions[e], change, UpdateById(sha, w.journal, w.executions[e].id, change, now));
  }

  lemma AfterWriteSameId(e: nat, x: Execution, change: Change, r: Result<Record, Failure>)
    ensures r.Ok? ==> AfterWrite(e, x, change, r.value).next.id == x.id
  {
  }

  lemma RunFromOne(sha: Sha256, w: World, a: Action)
    ensures RunFrom(sha, w, [a]) == Step(sha, w, a)
  {
    hide Step;
    assert [a][..0] == [];
  }

  /** Execution e was at x and has taken this answer. */
  ghost predicate Took(w: World, e: nat, x: Execution, answer: Answer) {
    OnAnswer(e, x, answer).Some? &&
    var eff := OnAnswer(e, x, answer).value;
    && e in w.executions && w.executions[e] == eff.next
    && (!eff.next.point.Finished? ==> Inside(w, e))
    && (eff.events != [] ==> w.trace != [] && w.trace[|w.trace| - 1] == eff.events[|eff.events| - 1])
  }

  /** How submission goes on after each kind of answer. */
  lemma TookSubmitAnswer(w: World, e: nat, x: Execution, answer: Answer)
    requires Took(w, e, x, answer) && x.point.AwaitSubmit? && x.prepared.Some?
    ensures Inside(w, e)
    ensures match answer
            case TxidAnswer(txid) =>
              w.executions[e] == x.(point := if Lower(txid) == Lower(x.prepared.value.txid) then Writing(ToSubmitted)
                                             else Writing(ToUnknown(InconsistentResponse)))
            case UnknownOutcome(failure) => w.executions[e] == x.(point := Writing(ToUnknown(failure)))
            case OtherError(failure) => w.executions[e] == x.(point := Writing(ToRejected(failure)))
            case _ => false
  {
  }

  /** How an execution stands that goes on after reading this record. */
  ghost predicate EntersWith(r: Record, x: Execution) {
    if r.phase.Submitted? then x.point == Writing(ToCompleted(BuildResult(x.intent, r.txid.GetOr([]), r.metadata)))
    else if !HasPrepared(r) then x.point == Writing(ToPreparing)
    else
      x.prepared == Some(PreparedOf(r))
      && x.point == if r.phase.OutcomeUnknown? || r.phase.Submitting? then AwaitReconcile else CallSubmit
  }

  predicate IsOver(r: Record) {
    || (r.phase.Submitted? && r.result.Some?)
    || r.phase.Declined? || r.phase.Expired? || r.phase.Rejected? || r.phase.FailedBeforeSubmission?
    || r.phase.AwaitingApproval?
  }

  /** The outcome for a record that leaves nothing to do. */
  function OverWith(r: Record): Result<Fields, Failure>
    requires IsOver(r)
  {
    if r.phase.Submitted? then Ok(r.result.value)
    else if r.phase.AwaitingApproval? then Err(NotApproved)
    else Err(if r.error.Some? then r.error.value else WrongPhase(r.phase))
  }

  lemma EnterEnds(sha: Sha256, w: World, v: World, e: nat, read: Result<Record, Failure>)
    requires e in w.executions && read == GetById(sha, w.journal, w.executions[e].id)
    requires Acted(w, v, e, OnEnter(sha, w.journal, e, w.executions[e]))
    requires read.Ok? ==> IsOver(read.value)
    ensures v.journal == w.journal
    ensures Reports(v, e, w.executions[e].id, if read.Ok? then OverWith(read.value) else Err(read.error))
  {
    hide GetById, BuildResult, OnPrepared, HasPrepared;
  }

  lemma EnterGoesOn(sha: Sha256, w: World, v: World, e: nat, r: Record)
    requires e in w.executions && GetById(sha, w.journal, w.executions[e].id) == Ok(r)
    requires Acted(w, v, e, OnEnter(sha, w.journal, e, w.executions[e]))
    requires !IsOver(r)
    ensures var x := w.executions[e];
            && v.journal == w.journal && Inside(v, e)
            && v.executions[e].id == x.id && v.executions[e].intent == x.intent && EntersWith(r, v.executions[e])
  {
    hide GetById, BuildResult, HasPrepared;
  }

  lemma FoundInJournal(sha: Sha256, journal: Journal, id: Text)
    ensures GetById(sha, journal, id).Ok? ==> id in journal && GetById(sha, journal, id) == Ok(journal[id])
  {
  }

  lemma ApproveStep(sha: Sha256, w: World, id: Text, fingerprint: Text, now: nat)
    ensures Step(sha, w, ApproveCall(id, fingerprint, now)).journal ==
            match GetById(sha, w.journal, id)
            case Ok(s) => Written(w.journal, id, Approve(s, fingerprint, now))
            case Err(_) => w.journal
  {
    hide GetById, Approve;
  }

  lemma DeclineStep(sha: Sha256, w: World, id: Text, now: nat)
    ensures Step(sha, w, DeclineCall(id, now)).journal ==
            match GetById(sha, w.journal, id)
            case Ok(s) => Written(w.journal, id, Decline(s, now))
            case Err(_) => w.journal
  {
    hide GetById, Decline;
  }

  lemma AnswerKeepsJournal(e: nat, x: Execution, answer: Answer)
    requires OnAnswer(e, x, answer).Some?
    ensures OnAnswer(e, x, answer).value.write.None?
  {
  }

  class WriteOperationService {
    const sha: Sha256
    var records: Journal      // the files of the state directory
    ghost var world: World    // the state of the protocol they belong to

    ghost predicate Valid()
      reads this
    {
      world.journal == records && Reached(sha, world)
    }

    constructor (hash: Sha256)
      ensures Valid() && sha == hash && records == map[] && world == START
    {
      sha := hash;
      records := map[];
      world := START;
      new;
      StartReached(sha);
    }

    method Read(id: Text) returns (r: Result<Record, Failure>)
      ensures r == GetById(sha, records, id)
    {
      if !IsLowerHex64(id) { return Err(InvalidIdentifier); }
      if id !in records { return Err(NotFound); }
      var record := records[id];
      if !ValidPersisted(sha, record, id) { return Err(InvalidRecord); }
      return Ok(record);
    }

    method ReserveIntent(key: Text, intent: Intent, now: nat) returns (r: Result<Record, Failure>)
      requires Valid()
      modifies this
      ensures Valid() && world == Step(sha, old(world), ReserveCall(key, intent, now))
      ensures r == Reserve(sha, old(records), key, intent, now)
      ensures records == if r.Ok? && sha(key) !in old(records) then old(records)[sha(key) := r.value] else old(records)
    {
      hide Reached, Leads, ValidPersisted, NewRecord, Fingerprint, Utf8, Canonical, IntentJson;
      OneStep(sha, world, ReserveCall(key, intent, now));
      world := Step(sha, world, ReserveCall(key, intent, now));
      if !ValidKey(key) { return Err(InvalidKey); }
      if !ValidIntent(intent) { return Err(InvalidIntent); }
      if |Utf8(Canonical(IntentJson(intent)))| > MAX_INTENT_BYTES { return Err(TooLarge); }
      var id := sha(key);
      var fingerprint := Fingerprint(sha, intent);
      var existing := Read(id);
      if existing.Ok? {
        if existing.value.fingerprint != fingerprint { return Err(KeyReused); }
        return existing;
      }
      if !existing.error.NotFound? { return existing; }
      if |records| >= MAX_RECORDS { return Err(QuotaReached); }
      var record := NewRecord(sha, id, intent, now);
      records := records[id := record];
      return Ok(record);
    }

    method ApproveIntent(id: Text, fingerprint: Text, now: nat) returns (r: Result<Record, Failure>)
      requires Valid()
      modifies this
      ensures Valid() && world == Step(sha, old(world), ApproveCall(id, fingerprint, now))
      ensures r == match GetById(sha, old(records), id) case Ok(s) => Approve(s, fingerprint, now) case Err(f) => Err(f)
      ensures records == Written(old(records), id, r)
    {
      hide Reached, Leads, GetById, Step;
      FoundInJournal(sha, records, id);
      ApproveStep(sha, world, id, fingerprint, now);
      OneStep(sha, world, ApproveCall(id, fingerprint, now));
      world := Step(sha, world, ApproveCall(id, fingerprint, now));
      r := Read(id);
      if r.Err? { return; }
      var record := r.value;
      if record.fingerprint != fingerprint { return Err(FingerprintMismatch); }
      if record.phase.Approved? || record.phase.Preparing? || record.phase.Submitting?
         || record.phase.OutcomeUnknown? || record.phase.Submitted? {
        UpdateSame(records, id);
        return Ok(record);
      }
      if !record.phase.AwaitingApproval? { return Err(WrongPhase(record.phase)); }
      r := Ok(record.(phase := Approved, updatedAt := now));
      records := records[id := r.value];
    }

    method DeclineIntent(id: Text, now: nat) returns (r: Result<Record, Failure>)
      requires Valid()
      modifies this
      ensures Valid() && world == Step(sha, old(world), DeclineCall(id, now))
      ensures r == match GetById(sha, old(records), id) case Ok(s) => Decline(s, now) case Err(f) => Err(f)
      ensures records == Written(old(records), id, r)
    {
      hide Reached, Leads, GetById, Step;
      FoundInJournal(sha, records, id);
      DeclineStep(sha, world, id, now);
      OneStep(sha, world, DeclineCall(id, now));
      world := Step(sha, world, DeclineCall(id, now));
      r := Read(id);
      if r.Err? { return; }
      if r.value.phase != AwaitingApproval { return Err(WrongPhase(r.value.phase)); }
      r := Ok(r.value.(phase := Declined, updatedAt := now));
      records := records[id := r.value];
    }

    // ------------------------------------------------- the writes of execute

    method MarkPreparing(id: Text, now: nat) returns (r: Result<Record, Failure>)
      modifies this`records
      ensures r == UpdateById(sha, old(records), id, ToPreparing, now)
      ensures records == Written(old(records), id, r)
    {
      hide GetById;
      r := Read(id);
      if r.Err? { return; }
      var record := r.value;
      if record.phase != Approved && record.phase != Preparing { return Err(WrongPhase(record.phase)); }
      if record.phase != Preparing {
        r := Ok(record.(phase := Preparing, updatedAt := now));
      }
      records := records[id := r.value];
    }

    method RecordPrepared(id: Text, p: Prepared, now: nat) returns (r: Result<Record, Failure>)
      modifies this`records
      ensures r == UpdateById(sha, old(records), id, ToPrepared(p), now)
      ensures records == Written(old(records), id, r)
    {
      hide GetById;
      r := Read(id);
      if r.Err? { return; }
      var record := r.value;
      if record.phase !in {Approved, Preparing} { return Err(WrongPhase(record.phase)); }
      if !ValidPrepared(p) { return Err(InvalidPrepared); }
      r := Ok(record.(rawTransaction := Some(p.rawTransaction), txid := Some(p.txid),
                      validUntilBlock := Some(p.validUntilBlock), metadata := p.metadata,
                      phase := Submitting, updatedAt := now));
      records := records[id := r.value];
    }

    method MarkOutcomeUnknown(id: Text, failure: Failure, now: nat) returns (r: Result<Record, Failure>)
      modifies this`records
      ensures r == UpdateById(sha, old(records), id, ToUnknown(failure), now)
      ensures records == Written(old(records), id, r)
    {
      hide GetById;
      r := Read(id);
      if r.Err? { return; }
      if !Truthy(r.value.rawTransaction) || !Truthy(r.value.txid) { return Err(NotPrepared); }
      r := Ok(r.value.(phase := OutcomeUnknown, error := Some(failure), updatedAt := now));
      records := records[id := r.value];
    }

    method MarkRejected(id: Text, failure: Failure, now: nat) returns (r: Result<Record, Failure>)
      modifies this`records
      ensures r == UpdateById(sha, old(records), id, ToRejected(failure), now)
      ensures records == Written(old(records), id, r)
    {
      hide GetById;
      r := Read(id);
      if r.Err? { return; }
      if !Truthy(r.value.rawTransaction) || !Truthy(r.value.txid) { return Err(NotPrepared); }
      r := Ok(r.value.(phase := Rejected, error := Some(failure), updatedAt := now));
      records := records[id := r.value];
    }

    method MarkBroadcastSucceeded(id: Text, now: nat) returns (r: Result<Record, Failure>)
      modifies this`records
      ensures r == UpdateById(sha, old(records), id, ToSubmitted, now)
      ensures records == Written(old(records), id, r)
    {
      hide GetById;
      r := Read(id);
      if r.Err? { return; }
      if !Truthy(r.value.rawTransaction) || !Truthy(r.value.txid) { return Err(NotPrepared); }
      r := Ok(r.value.(phase := Submitted, error := None, updatedAt := now));
      records := records[id := r.value];
    }

    method Complete(id: Text, result: Fields, now: nat) returns (r: Result<Record, Failure>)
      modifies this`records
      ensures r == UpdateById(sha, old(records), id, ToCompleted(result), now)
      ensures records == Written(old(records), id, r)
    {
      hide GetById;
      r := Read(id);
      if r.Err? { return; }
      if r.value.phase != Submitted { return Err(WrongPhase(r.value.phase)); }
      r := Ok(r.value.(result := Some(result), updatedAt := now));
      records := records[id := r.value];
    }

    method FailBeforeSubmission(id: Text, failure: Failure, now: nat) returns (r: Result<Record, Failure>)
      modifies this`records
      ensures r == UpdateById(sha, old(records), id, ToFailed(failure), now)
      ensures records == Written(old(records), id, r)
    {
      hide GetById;
      r := Read(id);
      if r.Err? { return; }
      if Truthy(r.value.rawTransaction) { return Err(AlreadyPrepared); }
      r := Ok(r.value.(phase := FailedBeforeSubmission, error := Some(failure), updatedAt := now));
      records := records[id := r.value];
    }

    method MarkExpired(id: Text, now: nat) returns (r: Result<Record, Failure>)
      modifies this`records
      ensures r == UpdateById(sha, old(records), id, ToExpired, now)
      ensures records == Written(old(records), id, r)
    {
      hide GetById;
      r := Read(id);
      if r.Err? { return; }
      r := Ok(r.value.(phase := Expired, error := Some(ExpiredUnobserved), updatedAt := now));
      records := records[id := r.value];
    }

    // ------------------------------------------------------------ environment

    /** The clock: any time. */
    method Now() returns (now: nat) {
      now := 0;
    }

    /** Execution e waits, and anything that is not its own doing may happen: callers
        know no more than that. */
    method Await(e: nat) returns (ghost others: seq<Action>)
      requires Valid() && Inside(world, e)
      modifies this
      ensures Valid() && world == RunFrom(sha, old(world), others) && forall a :: a in others ==> IsForeign(a, e)
    {
      others := [];
    }

    /** The answer of a callback: any answer to what the execution waits for. */
    method Answered(ghost e: nat, ghost x: Execution) returns (answer: Answer)
      requires x.point.AwaitPrepare?
               || ((x.point.AwaitReconcile? || x.point.AwaitExpiry? || x.point.AwaitSubmit?) && x.prepared.Some?)
      ensures OnAnswer(e, x, answer).Some?
    {
      answer := OtherError(Thrown([]));
    }

    // ------------------------------------------------ the operation of execute

    /** `complete` and the return of the result. */
    method FinishWith(e: nat, id: Text, result: Fields)
      returns (outcome: Result<Fields, Failure>, ghost schedule: seq<Action>)
      requires Valid() && Inside(world, e) && world.executions[e].id == id
      requires world.executions[e].point == Writing(ToCompleted(result))
      modifies this
      ensures Valid() && world == RunFrom(sha, old(world), schedule) && Reports(world, e, id, outcome)
    {
      hide UpdateById, Step, Reached, Leads;
      var now := Now();
      WriteStep(sha, world, e, ToCompleted(result), now);
      schedule := [Continue(e, Says(true), now)];
      RunFromOne(sha, world, schedule[0]);
      var r := Complete(id, result, now);
      world := Step(sha, world, schedule[0]);
      outcome := if r.Ok? then Ok(result) else Err(r.error);
    }

    /** `markBroadcastSucceeded` and what follows it. */
    method Succeed(e: nat, id: Text, intent: Intent, p: Prepared)
      returns (outcome: Result<Fields, Failure>, ghost schedule: seq<Action>)
      requires Valid() && Inside(world, e) && world.executions[e].id == id && world.executions[e].intent == intent
      requires world.executions[e].prepared == Some(p) && world.executions[e].point == Writing(ToSubmitted)
      modifies this
      ensures Valid() && world == RunFrom(sha, old(world), schedule) && Reports(world, e, id, outcome)
    {
      hide UpdateById, Step, Reached, Leads, BuildResult, RunFrom;
      var now := Now();
      WriteStep(sha, world, e, ToSubmitted, now);
      schedule := [Continue(e, Says(true), now)];
      RunFromOne(sha, world, schedule[0]);
      var r := MarkBroadcastSucceeded(id, now);
      world := Step(sha, world, schedule[0]);
      if r.Err? { return Err(r.error), schedule; }
      var result := BuildResult(intent, p.txid, p.metadata);
      ghost var rest;
      outcome, rest := FinishWith(e, id, result);
      RunFromAppends(sha, old(world), schedule, rest);
      schedule := schedule + rest;
    }

    /** The writes after which the operation throws. */
    method FailWith(e: nat, id: Text, change: Change)
      returns (outcome: Result<Fields, Failure>, ghost schedule: seq<Action>)
      requires Valid() && Inside(world, e) && world.executions[e].id == id
      requires world.executions[e].point == Writing(change)
      requires change.ToFailed? || change.ToUnknown? || change.ToRejected? || change.ToExpired?
      modifies this
      ensures Valid() && world == RunFrom(sha, old(world), schedule) && Reports(world, e, id, outcome) && outcome.Err?
    {
      hide UpdateById, Step, Reached, Leads, RunFrom;
      var now := Now();
      WriteStep(sha, world, e, change, now);
      schedule := [Continue(e, Says(true), now)];
      RunFromOne(sha, world, schedule[0]);
      var r;
      match change {
        case ToFailed(failure) => r := FailBeforeSubmission(id, failure, now); outcome := Err(failure);
        case ToUnknown(failure) => r := MarkOutcomeUnknown(id, failure, now); outcome := Err(failure);
        case ToRejected(failure) => r := MarkRejected(id, failure, now); outcome := Err(failure);
        case ToExpired => r := MarkExpired(id, now); outcome := Err(ExpiredUnobserved);
      }
      world := Step(sha, world, schedule[0]);
      if r.Err? { outcome := Err(r.error); }
    }

    /** Waits for a callback and takes its answer. */
    method AwaitAnswer(e: nat, ghost x: Execution) returns (answer: Answer, ghost schedule: seq<Action>)
      requires Valid() && Inside(world, e) && world.executions[e] == x
      requires x.point.AwaitPrepare?
               || ((x.point.AwaitReconcile? || x.point.AwaitExpiry? || x.point.AwaitSubmit?) && x.prepared.Some?)
      modifies this
      ensures Valid() && world == RunFrom(sha, old(world), schedule)
      ensures Took(world, e, x, answer)
    {
      hide Step, Reached, Leads, OnAnswer, Inside, RunFrom;
      var others := Await(e);
      ReachedInv(sha, old(world));
      ForeignRunKeeps(sha, old(world), e, others);
      answer := Answered(e, x);
      ghost var waited := world;
      AnswerStep(sha, world, e, answer, 0);
      AnswerKeepsJournal(e, x, answer);
      ghost var mine := Continue(e, answer, 0);
      RunFromOne(sha, waited, mine);
      world := Step(sha, world, mine);
      RunFromAppends(sha, old(world), others, [mine]);
      schedule := others + [mine];
    }

    /** What follows the answer of `submit`. */
    method Settle(e: nat, id: Text, intent: Intent, p: Prepared, ghost x: Execution, answer: Answer)
      returns (outcome: Result<Fields, Failure>, ghost schedule: seq<Action>)
      requires Valid() && Took(world, e, x, answer) && x.point.AwaitSubmit?
      requires x.id == id && x.intent == intent && x.prepared == Some(p)
      modifies this
      ensures Valid() && world == RunFrom(sha, old(world), schedule) && Reports(world, e, id, outcome)
    {
      hide Step, Reached, Leads, RunFrom, Took, Inside, Reports;
      TookSubmitAnswer(world, e, x, answer);
      match answer {
        case TxidAnswer(txid) =>
          if Lower(txid) == Lower(p.txid) {
            outcome, schedule := Succeed(e, id, intent, p);
          } else {
            outcome, schedule := FailWith(e, id, ToUnknown(InconsistentResponse));
          }
        case UnknownOutcome(failure) =>
          outcome, schedule := FailWith(e, id, ToUnknown(failure));
        case OtherError(failure) =>
          outcome, schedule := FailWith(e, id, ToRejected(failure));
      }
    }

    /** The call of `submit`, up to its first wait. */
    method CallSubmission(e: nat, ghost x: Execution) returns (ghost schedule: seq<Action>)
      requires Valid() && Inside(world, e) && world.executions[e] == x && x.point == CallSubmit && x.prepared.Some?
      modifies this`world
      ensures Valid() && world == RunFrom(sha, old(world), schedule)
      ensures Inside(world, e) && world.executions[e] == x.(point := AwaitSubmit)
    {
      hide Step, Reached, Leads, RunFrom;
      ghost var mine := Continue(e, Says(true), 0);
      AnswerStep(sha, world, e, Says(true), 0);
      RunFromOne(sha, world, mine);
      world := Step(sha, world, mine);
      schedule := [mine];
    }

    method AwaitSubmission(e: nat, id: Text, intent: Intent, p: Prepared)
      returns (outcome: Result<Fields, Failure>, ghost schedule: seq<Action>)
      requires Valid() && Inside(world, e) && world.executions[e].id == id && world.executions[e].intent == intent
      requires world.executions[e].prepared == Some(p) && world.executions[e].point == AwaitSubmit
      modifies this
      ensures Valid() && world == RunFrom(sha, old(world), schedule) && Reports(world, e, id, outcome)
    {
      ghost var x := world.executions[e];
      hide Step, Reached, Leads, RunFrom, Took, Inside, Reports;
      var answer;
      ghost var rest;
      answer, schedule := AwaitAnswer(e, x);
      outcome, rest := Settle(e, id, intent, p, x, answer);
      RunFromAppends(sha, old(world), schedule, rest);
      schedule := schedule + rest;
    }

    /** From the call of `submit` on. */
    method SubmitPrepared(e: nat, id: Text, intent: Intent, p: Prepared)
      returns (outcome: Result<Fields, Failure>, ghost schedule: seq<Action>)
      requires Valid() && Inside(world, e) && world.executions[e].id == id && world.executions[e].intent == intent
      requires world.executions[e].prepared == Some(p) && world.executions[e].point == CallSubmit
      modifies this
      ensures Valid() && world == RunFrom(sha, old(world), schedule) && Reports(world, e, id, outcome)
    {
      hide Step, Reached, Leads, RunFrom, Reports;
      schedule := CallSubmission(e, world.executions[e]);
      ghost var rest;
      outcome, rest := AwaitSubmission(e, id, intent, p);
      RunFromAppends(sha, old(world), schedule, rest);
      schedule := schedule + rest;
    }

    /** The checks before a transaction is submitted again. */
    method Resubmit(e: nat, id: Text, intent: Intent, p: Prepared)
      returns (outcome: Result<Fields, Failure>, ghost schedule: seq<Action>)
      requires Valid() && Inside(world, e) && world.executions[e].id == id && world.executions[e].intent == intent
      requires world.executions[e].prepared == Some(p) && world.executions[e].point == AwaitReconcile
      modifies this
      ensures Valid() && world == RunFrom(sha, old(world), schedule) && Reports(world, e, id, outcome)
    {
      hide Step, Reached, Leads, RunFrom;
      var answer;
      ghost var rest;
      answer, schedule := AwaitAnswer(e, world.executions[e]);
      if answer.OtherError? || answer.UnknownOutcome? {
        return Err(answer.failure), schedule;
      }
      if answer.yes {
        outcome, rest := Succeed(e, id, intent, p);
      } else {
        outcome, rest := CheckExpiry(e, id, intent, p);
      }
      RunFromAppends(sha, old(world), schedule, rest);
      schedule := schedule + rest;
    }

    method CheckExpiry(e: nat, id: Text, intent: Intent, p: Prepared)
      returns (outcome: Result<Fields, Failure>, ghost schedule: seq<Action>)
      requires Valid() && Inside(world, e) && world.executions[e].id == id && world.executions[e].intent == intent
      requires world.executions[e].prepared == Some(p) && world.executions[e].point == AwaitExpiry
      modifies this
      ensures Valid() && world == RunFrom(sha, old(world), schedule) && Reports(world, e, id, outcome)
    {
      hide Step, Reached, Leads, RunFrom;
      var answer;
      ghost var rest;
      answer, schedule := AwaitAnswer(e, world.executions[e]);
      if answer.OtherError? || answer.UnknownOutcome? {
        return Err(answer.failure), schedule;
      }
      if answer.yes {
        outcome, rest := FailWith(e, id, ToExpired);
      } else {
        outcome, rest := SubmitPrepared(e, id, intent, p);
      }
      RunFromAppends(sha, old(world), schedule, rest);
      schedule := schedule + rest;
    }

    /** `markPreparing`, `prepare` and `recordPrepared`: the transaction made durable,
        or the operation over. */
    method Prepare(e: nat, id: Text, intent: Intent)
      returns (made: Result<Prepared, Failure>, ghost schedule: seq<Action>)
      requires Valid() && Inside(world, e) && world.executions[e].id == id && world.executions[e].intent == intent
      requires world.executions[e].point == Writing(ToPreparing)
      modifies this
      ensures Valid() && world == RunFrom(sha, old(world), schedule)
      ensures match made
              case Ok(p) =>
                && Inside(world, e) && world.executions[e].id == id && world.executions[e].intent == intent
                && world.executions[e].prepared == Some(p) && world.executions[e].point == CallSubmit
              case Err(failure) => Reports(world, e, id, Err(failure))
    {
      hide Step, Reached, Leads, RunFrom, UpdateById;
      var now := Now();
      ghost var rest;
      WriteStep(sha, world, e, ToPreparing, now);
      schedule := [Continue(e, Says(true), now)];
      RunFromOne(sha, world, schedule[0]);
      var r := MarkPreparing(id, now);
      world := Step(sha, world, schedule[0]);
      if r.Err? {
        var outcome;
        outcome, rest := FailWith(e, id, ToFailed(r.error));
        made := Err(outcome.error);
      } else {
        made, rest := PrepareAndRecord(e, id, intent);
      }
      RunFromAppends(sha, old(world), schedule, rest);
      schedule := schedule + rest;
    }

    method PrepareAndRecord(e: nat, id: Text, intent: Intent)
      returns (made: Result<Prepared, Failure>, ghost schedule: seq<Action>)
      requires Valid() && Inside(world, e) && world.executions[e].id == id && world.executions[e].intent == intent
      requires world.executions[e].point == AwaitPrepare
      modifies this
      ensures Valid() && world == RunFrom(sha, old(world), schedule)
      ensures match made
              case Ok(p) =>
                && Inside(world, e) && world.executions[e].id == id && world.executions[e].intent == intent
                && world.executions[e].prepared == Some(p) && world.executions[e].point == CallSubmit
              case Err(failure) => Reports(world, e, id, Err(failure))
    {
      hide Step, Reached, Leads, RunFrom, UpdateById;
      var answer;
      ghost var rest;
      answer, schedule := AwaitAnswer(e, world.executions[e]);
      if !answer.PrepareAnswer? {
        var outcome;
        outcome, rest := FailWith(e, id, ToFailed(answer.failure));
        made := Err(outcome.error);
      } else {
        made, rest := RecordOrFail(e, id, intent, answer.prepared);
      }
      RunFromAppends(sha, old(world), schedule, rest);
      schedule := schedule + rest;
    }

    method RecordOrFail(e: nat, id: Text, intent: Intent, p: Prepared)
      returns (made: Result<Prepared, Failure>, ghost schedule: seq<Action>)
      requires Valid() && Inside(world, e) && world.executions[e].id == id && world.executions[e].intent == intent
      requires world.executions[e].point == Writing(ToPrepared(p))
      modifies this
      ensures Valid() && world == RunFrom(sha, old(world), schedule)
      ensures match made
              case Ok(q) =>
                && Inside(world, e) && world.executions[e].id == id && world.executions[e].intent == intent
                && world.executions[e].prepared == Some(q) && world.executions[e].point == CallSubmit
              case Err(failure) => Reports(world, e, id, Err(failure))
    {
      hide Step, Reached, Leads, RunFrom, UpdateById;
      var now := Now();
      WriteStep(sha, world, e, ToPrepared(p), now);
      schedule := [Continue(e, Says(true), now)];
      RunFromOne(sha, world, schedule[0]);
      var r := RecordPrepared(id, p, now);
      world := Step(sha, world, schedule[0]);
      if r.Ok? { return Ok(p), schedule; }
      ghost var rest;
      var outcome;
      outcome, rest := FailWith(e, id, ToFailed(r.error));
      made := Err(outcome.error);
      RunFromAppends(sha, old(world), schedule, rest);
      schedule := schedule + rest;
    }

    /** What follows the first reading of an approved, unsettled record. */
    method Advance(e: nat, id: Text, intent: Intent, record: Record)
      returns (outcome: Result<Fields, Failure>, ghost schedule: seq<Action>)
      requires Valid() && Inside(world, e) && world.executions[e].id == id && world.executions[e].intent == intent
      requires EntersWith(record, world.executions[e])
      modifies this
      ensures Valid() && world == RunFrom(sha, old(world), schedule) && Reports(world, e, id, outcome)
    {
      hide Reached, Leads, RunFrom, Reports;
      if record.phase == Submitted {
        outcome, schedule := FinishWith(e, id, BuildResult(intent, record.txid.GetOr([]), record.metadata));
      } else if !HasPrepared(record) {
        outcome, schedule := PrepareAndSubmit(e, id, intent);
      } else if record.phase == OutcomeUnknown || record.phase == Submitting {
        outcome, schedule := Resubmit(e, id, intent, PreparedOf(record));
      } else {
        outcome, schedule := SubmitPrepared(e, id, intent, PreparedOf(record));
      }
    }

    /** The operation that `execute` runs once it is inside `runExclusive`: whatever
        else happens while it waits, it is a run of the state machine, its outcome is
        the one the trace reports, and a result is the one its intent should have. */
    method ExecuteOperation(e: nat, id: Text, intent: Intent)
      returns (outcome: Result<Fields, Failure>, ghost schedule: seq<Action>)
      requires Valid() && e in world.executions && world.executions[e].point == Queued
      requires world.executions[e].id == id && world.executions[e].intent == intent && id !in world.holder
      modifies this
      ensures Valid() && world == RunFrom(sha, old(world), schedule) && Reports(world, e, id, outcome)
      ensures outcome.Ok? ==>
                && id in records && records[id].txid.Some?
                && IsResultOf(records[id].intent, records[id].txid.value, records[id].metadata, outcome.value)
    {
      hide Step, Reached, Leads, RunFrom, GetById, OnEnter, Acted, EntersWith, Reports, IsResultOf;
      EnterStep(sha, world, e);
      schedule := [Enter(e)];
      RunFromOne(sha, world, Enter(e));
      var read := Read(id);
      ghost var before := world;
      world := Step(sha, world, Enter(e));
      if read.Err? || IsOver(read.value) {
        EnterEnds(sha, before, world, e, read);
      } else {
        EnterGoesOn(sha, before, world, e, read.value);
      }
      if read.Err? { return Err(read.error), schedule; }
      var record := read.value;
      if record.phase == Submitted && record.result.Some? {
        ReportedResult(sha, world, e, id, Ok(record.result.value));
        return Ok(record.result.value), schedule;
      }
      if record.phase in {Declined, Expired, Rejected, FailedBeforeSubmission} {
        return Err(if record.error.Some? then record.error.value else WrongPhase(record.phase)), schedule;
      }
      if record.phase == AwaitingApproval {
        return Err(NotApproved), schedule;
      }
      ghost var rest;
      outcome, rest := Advance(e, id, intent, record);
      RunFromAppends(sha, old(world), schedule, rest);
      schedule := schedule + rest;
      if outcome.Ok? { ReportedResult(sha, world, e, id, outcome); }
    }

    method PrepareAndSubmit(e: nat, id: Text, intent: Intent)
      returns (outcome: Result<Fields, Failure>, ghost schedule: seq<Action>)
      requires Valid() && Inside(world, e) && world.executions[e].id == id && world.executions[e].intent == intent
      requires world.executions[e].point == Writing(ToPreparing)
      modifies this
      ensures Valid() && world == RunFrom(sha, old(world), schedule) && Reports(world, e, id, outcome)
    {
      hide Step, Reached, Leads, RunFrom;
      var made;
      made, schedule := Prepare(e, id, intent);
      if made.Err? { return Err(made.error), schedule; }
      ghost var rest;
      outcome, rest := SubmitPrepared(e, id, intent, made.value);
      RunFromAppends(sha, old(world), schedule, rest);
      schedule := schedule + rest;
    }
  }
}
