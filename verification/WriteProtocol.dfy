/** The durable write-intent protocol as a state machine: `WriteOperationService`
    driven by `WriteCoordinator.execute`, with concurrent executions and crashes.

    A run is a sequence of actions. `reserve`, `approve` and `decline` never wait,
    so each is one action. An execution is cut at every `await` and before every
    durable write, and any other action may come in between. What the chain and the
    network answer is part of the action. A crash forgets everything but the
    journal. The trace records what happened; nothing reads it. */
module WriteProtocol {
  import opened JsText
  import opened CanonicalJson
  import opened WriteRecords

  // ----------------------------------------------------------------- state

  /** Where an execution stands. */
  datatype Point =
    | Queued                     // waits in runExclusive
    | Writing(change: Change)    // its next act is a durable write
    | AwaitPrepare
    | AwaitReconcile
    | AwaitExpiry
    | CallSubmit                 // its next act is the call of submit
    | AwaitSubmit
    | Finished
    | Lost                       // its process crashed

  /** An execution, the intent its callbacks were built from, the transaction it
      works on and whether it prepared that transaction itself. */
  datatype Execution = Execution(id: Text, intent: Intent, point: Point, prepared: Option<Prepared>, preparedHere: bool)

  datatype Event =
    | Durable(id: Text, record: Record)   // the journal now holds this record
    | WasApproved(id: Text, fingerprint: Text)
    | WasDeclined(id: Text)
    | PrepareCalled(exec: nat, id: Text)
    | PreparedHere(exec: nat, id: Text, prepared: Prepared)
    | ReconcileCalled(exec: nat, id: Text, txid: Text)
    | Reconciled(exec: nat, id: Text, txid: Text, found: bool)
    | ExpiryChecked(exec: nat, id: Text, height: int, expired: bool)
    | SubmitCalled(exec: nat, id: Text, prepared: Prepared)
    | SubmitReturned(exec: nat, id: Text, txid: Text)
    | Returned(exec: nat, id: Text, result: Fields)
    | Threw(exec: nat, id: Text, failure: Failure)
    | Crashed

  datatype World = World(
    journal: Journal,                    // durable
    executions: map<nat, Execution>,     // lost in a crash
    holder: map<Text, nat>,              // the execution inside runExclusive, by intent
    trace: seq<Event>)

  /** What a callback answers. */
  datatype Answer =
    | PrepareAnswer(prepared: Prepared)
    | Says(yes: bool)
    | TxidAnswer(txid: Text)
    | UnknownOutcome(failure: Failure)   // SubmissionOutcomeUnknownError
    | OtherError(failure: Failure)

  datatype Action =
    | ReserveCall(key: Text, intent: Intent, now: nat)
    | ApproveCall(id: Text, fingerprint: Text, now: nat)
    | DeclineCall(id: Text, now: nat)
    | ExecuteCall(exec: nat, id: Text)
    | Enter(exec: nat)
    | Continue(exec: nat, answer: Answer, now: nat)
    | Crash

  // ------------------------------------------------------------- execution

  /** What an execution does next: the record it writes, how it goes on and what it
      adds to the trace. */
  datatype Effect = Effect(write: Option<Record>, next: Execution, events: seq<Event>)

  function Go(x: Execution, point: Point, events: seq<Event>): Effect {
    Effect(None, x.(point := point), events)
  }

  function Throw(e: nat, x: Execution, failure: Failure): Effect {
    Go(x, Finished, [Threw(e, x.id, failure)])
  }

  function Return(e: nat, x: Execution, result: Fields): Effect {
    Go(x, Finished, [Returned(e, x.id, result)])
  }

  /** The prepared transaction of a record, as the callbacks get it. */
  predicate HasPrepared(r: Record) {
    Truthy(r.rawTransaction) && Truthy(r.txid) && r.validUntilBlock.Some? && r.validUntilBlock.value != 0
  }

  function PreparedOf(r: Record): Prepared
    requires HasPrepared(r)
  {
    Prepared(r.rawTransaction.value, r.txid.value, r.validUntilBlock.value, r.metadata)
  }

  /** The first part of the operation: everything before the first wait or write. */
  function OnEnter(sha: Sha256, journal: Journal, e: nat, x: Execution): Effect {
    match GetById(sha, journal, x.id)
    case Err(failure) => Throw(e, x, failure)
    case Ok(r) =>
      if r.phase.Submitted? && r.result.Some? then Return(e, x, r.result.value)
      else if r.phase.Submitted? then
        Go(x, Writing(ToCompleted(BuildResult(x.intent, r.txid.GetOr([]), r.metadata))), [])
      else if r.phase.Declined? || r.phase.Expired? || r.phase.Rejected? || r.phase.FailedBeforeSubmission? then
        Throw(e, x, if r.error.Some? then r.error.value else WrongPhase(r.phase))
      else if r.phase.AwaitingApproval? then Throw(e, x, NotApproved)
      else if !HasPrepared(r) then Go(x, Writing(ToPreparing), [])
      else OnPrepared(e, x.(prepared := Some(PreparedOf(r)), preparedHere := false), r)
  }

  /** The guard before submission. */
  function OnPrepared(e: nat, x: Execution, r: Record): Effect
    requires x.prepared.Some?
  {
    if !x.preparedHere && (r.phase.OutcomeUnknown? || r.phase.Submitting?) then
      Go(x, AwaitReconcile, [ReconcileCalled(e, x.id, x.prepared.value.txid)])
    else Go(x, CallSubmit, [])
  }

  /** What follows a durable write. */
  function OnWrite(sha: Sha256, journal: Journal, e: nat, x: Execution, change: Change, now: nat): Effect {
    match UpdateById(sha, journal, x.id, change, now)
    case Err(failure) =>
      if change.ToPreparing? || change.ToPrepared? then Go(x, Writing(ToFailed(failure)), [])
      else Throw(e, x, failure)
    case Ok(r) => AfterWrite(e, x, change, r).(write := Some(r))
  }

  function AfterWrite(e: nat, x: Execution, change: Change, r: Record): Effect {
    match change
    case ToPreparing => Go(x, AwaitPrepare, [PrepareCalled(e, x.id)])
    case ToPrepared(p) =>
      var eff := OnPrepared(e, x.(prepared := Some(p), preparedHere := true), r);
      eff.(events := [PreparedHere(e, x.id, p)] + eff.events)
    case ToUnknown(failure) => Throw(e, x, failure)
    case ToRejected(failure) => Throw(e, x, failure)
    case ToFailed(failure) => Throw(e, x, failure)
    case ToExpired => Throw(e, x, ExpiredUnobserved)
    case ToSubmitted =>
      (match x.prepared
       case Some(p) => Go(x, Writing(ToCompleted(BuildResult(x.intent, p.txid, p.metadata))), [])
       case None => Throw(e, x, NotPrepared))
    case ToCompleted(result) => Return(e, x, result)
  }

  /** What follows an answer, or None when the answer is not one to what the
      execution waits for. */
  function OnAnswer(e: nat, x: Execution, answer: Answer): Option<Effect> {
    match (x.point, x.prepared)
    case (AwaitPrepare, _) =>
      (match answer
       case PrepareAnswer(p) => Some(Go(x, Writing(ToPrepared(p)), []))
       case UnknownOutcome(failure) => Some(Go(x, Writing(ToFailed(failure)), []))
       case OtherError(failure) => Some(Go(x, Writing(ToFailed(failure)), []))
       case _ => None)
    case (AwaitReconcile, Some(p)) =>
      (match answer
       case Says(found) =>
         Some(Go(x, if found then Writing(ToSubmitted) else AwaitExpiry, [Reconciled(e, x.id, p.txid, found)]))
       case UnknownOutcome(failure) => Some(Throw(e, x, failure))
       case OtherError(failure) => Some(Throw(e, x, failure))
       case _ => None)
    case (AwaitExpiry, Some(p)) =>
      (match answer
       case Says(expired) =>
         Some(Go(x, if expired then Writing(ToExpired) else CallSubmit,
                 [ExpiryChecked(e, x.id, p.validUntilBlock, expired)]))
       case UnknownOutcome(failure) => Some(Throw(e, x, failure))
       case OtherError(failure) => Some(Throw(e, x, failure))
       case _ => None)
    case (CallSubmit, Some(p)) => Some(Go(x, AwaitSubmit, [SubmitCalled(e, x.id, p)]))
    case (AwaitSubmit, Some(p)) =>
      (match answer
       case TxidAnswer(txid) =>
         Some(Go(x, if Lower(txid) == Lower(p.txid) then Writing(ToSubmitted)
                    else Writing(ToUnknown(InconsistentResponse)),
                 [SubmitReturned(e, x.id, txid)]))
       case UnknownOutcome(failure) => Some(Go(x, Writing(ToUnknown(failure)), []))
       case OtherError(failure) => Some(Go(x, Writing(ToRejected(failure)), []))
       case _ => None)
    case _ => None
  }

  /** The next act of an execution that is inside runExclusive. */
  function React(sha: Sha256, journal: Journal, e: nat, x: Execution, answer: Answer, now: nat): Option<Effect> {
    if x.point.Writing? then Some(OnWrite(sha, journal, e, x, x.point.change, now)) else OnAnswer(e, x, answer)
  }

  // ------------------------------------------------------------------ steps

  function Put(w: World, id: Text, r: Record, events: seq<Event>): World {
    w.(journal := w.journal[id := r], trace := w.trace + [Durable(id, r)] + events)
  }

  /** An execution acts; when it ends, the next one in the queue may enter. */
  function Act(w: World, e: nat, eff: Effect): World {
    var id := eff.next.id;
    World(
      if eff.write.Some? then w.journal[id := eff.write.value] else w.journal,
      w.executions[e := eff.next],
      if eff.next.point.Finished? then w.holder - {id} else w.holder[id := e],
      w.trace + (if eff.write.Some? then [Durable(id, eff.write.value)] else []) + eff.events)
  }

  function Step(sha: Sha256, w: World, a: Action): World {
    match a
    case ReserveCall(key, intent, now) =>
      (match Reserve(sha, w.journal, key, intent, now)
       case Ok(r) => if sha(key) in w.journal then w else Put(w, sha(key), r, [])
       case Err(_) => w)
    case ApproveCall(id, fingerprint, now) =>
      (match GetById(sha, w.journal, id)
       case Ok(r) =>
         (match Approve(r, fingerprint, now)
          case Ok(s) => Put(w, id, s, [WasApproved(id, fingerprint)])
          case Err(_) => w)
       case Err(_) => w)
    case DeclineCall(id, now) =>
      (match GetById(sha, w.journal, id)
       case Ok(r) =>
         (match Decline(r, now)
          case Ok(s) => Put(w, id, s, [WasDeclined(id)])
          case Err(_) => w)
       case Err(_) => w)
    case ExecuteCall(e, id) =>
      (match GetById(sha, w.journal, id)
       case Ok(r) =>
         if e in w.executions then w
         else w.(executions := w.executions[e := Execution(id, r.intent, Queued, None, false)])
       case Err(_) => w)
    case Enter(e) =>
      if e in w.executions && w.executions[e].point.Queued? && w.executions[e].id !in w.holder then
        Act(w, e, OnEnter(sha, w.journal, e, w.executions[e]))
      else w
    case Continue(e, answer, now) =>
      if e !in w.executions then w
      else
        (match React(sha, w.journal, e, w.executions[e], answer, now)
         case Some(eff) => Act(w, e, eff)
         case None => w)
    case Crash =>
      World(w.journal, map e | e in w.executions :: Lose(w.executions[e]), map[], w.trace + [Crashed])
  }

  function Lose(x: Execution): Execution { if x.point.Finished? then x else x.(point := Lost) }

  // ------------------------------------------------------------------- runs

  const START: World := World(map[], map[], map[], [])

  /** No action leads out of the set. */
  ghost predicate Closed(sha: Sha256, worlds: iset<World>) {
    forall w, a :: w in worlds ==> Step(sha, w, a) in worlds
  }

  /** Some run leads from one world to the other: the second is in every set that no
      run from the first can leave. */
  ghost predicate Leads(sha: Sha256, w: World, v: World) {
    forall worlds :: Closed(sha, worlds) && w in worlds ==> v in worlds
  }

  /** The worlds of all runs from an empty journal. */
  ghost predicate Reached(sha: Sha256, w: World) { Leads(sha, START, w) }
}
