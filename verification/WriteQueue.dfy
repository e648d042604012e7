/** The write-intent protocol with the promise chains of `runExclusive` in place of its
    table of locks: an execution enters only when the queue lets its call resume. */
module WriteQueue {
  import opened JsText
  import opened WriteRecords
  import opened WriteProtocol
  import opened WriteProtocolInvariant
  import opened WriteProtocolSteps
  import Q = ExclusiveQueue

  /** The protocol, the queue of the process, and the execution that each call of
      `runExclusive` is. */
  datatype Process = Process(world: World, queue: Q.Queue<Text>, execs: seq<nat>)

  datatype Deed =
    | Execute(exec: nat, id: Text)                    // `execute` up to its first wait
    | Resume(call: nat)                               // the promise a call waits for resolves
    | Goes(call: nat, answer: Answer, now: nat)       // an operation that has started goes on
    | Elsewhere(action: Action)                       // reserve, approve, decline or a crash

  /** The queue after an act of the execution behind a call. */
  function Left(q: Q.Queue<Text>, call: nat, point: Point): Q.Queue<Text> {
    if point.Finished? then Q.Step(q, Q.Leave(call, false)) else q
  }

  /** The call waits, and what it waits for has resolved. */
  predicate MayResume(s: Process, call: nat) {
    call < |s.queue.calls| && s.queue.calls[call].status == Q.Waiting
    && Q.HasResolved(s.queue.calls, s.queue.calls[call].previous)
  }

  function Acted(s: Process, w: World, q: Q.Queue<Text>, call: nat): Process
    requires call < |s.execs|
  {
    var e := s.execs[call];
    Process(w, if e in w.executions then Left(q, call, w.executions[e].point) else q, s.execs)
  }

  function Next(sha: Sha256, s: Process, d: Deed): Process {
    match d
    case Execute(e, id) =>
      var w := Step(sha, s.world, ExecuteCall(e, id));
      if e in s.world.executions || e !in w.executions then s
      else Process(w, Q.Step(s.queue, Q.Arrive(id)), s.execs + [e])
    case Resume(call) =>
      if MayResume(s, call) && call < |s.execs| then
        Acted(s, Step(sha, s.world, Enter(s.execs[call])), Q.Step(s.queue, Q.Resume(call)), call)
      else s
    case Goes(call, answer, now) =>
      if call < |s.queue.calls| && s.queue.calls[call].status == Q.Running && call < |s.execs| then
        Acted(s, Step(sha, s.world, Continue(s.execs[call], answer, now)), s.queue, call)
      else s
    case Elsewhere(action) =>
      (match action
       case Crash => Process(Step(sha, s.world, Crash), Q.Empty(), [])
       case ReserveCall(_, _, _) => s.(world := Step(sha, s.world, action))
       case ApproveCall(_, _, _) => s.(world := Step(sha, s.world, action))
       case DeclineCall(_, _) => s.(world := Step(sha, s.world, action))
       case _ => s)
  }

  const START_PROCESS: Process := Process(START, Q.Empty(), [])

  ghost predicate ClosedProcesses(sha: Sha256, ps: iset<Process>) {
    forall s, d :: s in ps ==> Next(sha, s, d) in ps
  }

  /** The process at the end of some run from an empty journal. */
  ghost predicate Runs(sha: Sha256, s: Process) {
    forall ps :: ClosedProcesses(sha, ps) && START_PROCESS in ps ==> s in ps
  }

  // ------------------------------------------------------------- invariant

  /** Where the execution behind a call stands. */
  predicate Matches(status: Q.Status, point: Point) {
    match status
    case Waiting => point.Queued?
    case Running => IsActive(point)
    case Done => point.Finished?
  }

  predicate CallIs(s: Process, call: nat)
    requires call < |s.queue.calls| && |s.execs| == |s.queue.calls|
  {
    var e := s.execs[call];
    e in s.world.executions && s.world.executions[e].id == s.queue.calls[call].key
    && Matches(s.queue.calls[call].status, s.world.executions[e].point)
  }

  /** Each call is an execution of its own, and every execution that is not over is one
      of them. */
  ghost predicate Paired(s: Process) {
    && |s.execs| == |s.queue.calls|
    && (forall c {:trigger CallIs(s, c)} :: 0 <= c < |s.execs| ==> CallIs(s, c))
    && (forall c, d :: 0 <= c < d < |s.execs| ==> s.execs[c] != s.execs[d])
    && (forall e :: e in s.world.executions && !IsOver(s.world.executions[e].point) ==> e in s.execs)
  }

  predicate IsOver(point: Point) { point.Finished? || point.Lost? }

  ghost predicate ProcessInv(sha: Sha256, s: Process) { Reached(sha, s.world) && Q.Reached(s.queue) && Paired(s) }

  /** A call that may resume finds the lock of its intent free. */
  lemma LockIsFree(sha: Sha256, s: Process, call: nat)
    requires ProcessInv(sha, s) && MayResume(s, call)
    ensures call < |s.execs| && s.execs[call] in s.world.executions
    ensures s.world.executions[s.execs[call]].point.Queued?
    ensures s.world.executions[s.execs[call]].id == s.queue.calls[call].key
    ensures s.queue.calls[call].key !in s.world.holder
  {
    hide Reached, Q.Reached, Inv, Q.HasResolved;
    var key := s.queue.calls[call].key;
    assert CallIs(s, call);
    if key in s.world.holder {
      ReachedInv(sha, s.world);
      HolderAtWork(sha, s.world, key);
      var e := s.world.holder[key];
      var c := CallOf(s, e);
      assert CallIs(s, c);
      TurnOrder(s.queue, call, c);
      assert false;
    }
  }

  lemma CallOf(s: Process, e: nat) returns (c: nat)
    requires Paired(s) && e in s.world.executions && IsActive(s.world.executions[e].point)
    ensures c < |s.execs| && s.execs[c] == e
  {
    hide CallIs;
    assert !IsOver(s.world.executions[e].point);
    c :| 0 <= c < |s.execs| && s.execs[c] == e;
  }

  lemma HolderAtWork(sha: Sha256, w: World, id: Text)
    requires Inv(sha, w) && id in w.holder
    ensures var e := w.holder[id]; e in w.executions && IsActive(w.executions[e].point) && w.executions[e].id == id
  {
    hide RecordInv, ExecInv, EventInv, Quiet;
  }

  /** While a call may resume, no call with its key is running. */
  lemma TurnOrder(q: Q.Queue<Text>, call: nat, other: nat)
    requires Q.Reached(q) && call < |q.calls| && q.calls[call].status == Q.Waiting
    requires Q.HasResolved(q.calls, q.calls[call].previous)
    requires other < |q.calls| && q.calls[other].key == q.calls[call].key
    ensures q.calls[other].status != Q.Running
  {
    Q.ReachedInv(q);
    hide Q.Reached, Q.HasResolved;
    Q.ResolvedMeansTurn(q, call);
    assert Q.InTurn(q, other);
  }

  // ------------------------------------------------------------------ steps

  lemma QueueStays(q: Q.Queue<Text>, a: Q.Action<Text>)
    requires Q.Reached(q)
    ensures Q.Reached(Q.Step(q, a))
  {
    hide Q.Step;
  }

  lemma QueueStarts()
    ensures Q.Reached<Text>(Q.Empty())
  {
  }

  /** Only one execution has moved, and it is behind this call. */
  lemma PairedAfter(s: Process, r: Process, call: nat)
    requires Paired(s) && call < |s.execs| && r.execs == s.execs && |r.queue.calls| == |s.queue.calls|
    requires forall e :: e in r.world.executions <==> e in s.world.executions
    requires forall e :: e in s.world.executions && e != s.execs[call] ==>
               r.world.executions[e] == s.world.executions[e]
    requires forall c :: 0 <= c < |s.execs| && c != call ==> r.queue.calls[c] == s.queue.calls[c]
    requires CallIs(r, call)
    ensures Paired(r)
  {
    hide Matches, IsOver;
    forall c | 0 <= c < |r.execs| ensures CallIs(r, c) {
      if c != call {
        assert CallIs(s, c);
        assert s.execs[c] != s.execs[call];
      }
    }
  }

  lemma ActShape(w: World, e: nat, eff: Effect)
    requires e in w.executions
    ensures Act(w, e, eff).executions == w.executions[e := eff.next]
  {
  }

  lemma EnterMoves(sha: Sha256, w: World, e: nat)
    requires Inv(sha, w) && e in w.executions && w.executions[e].point.Queued? && w.executions[e].id !in w.holder
    ensures var eff := OnEnter(sha, w.journal, e, w.executions[e]);
            Step(sha, w, Enter(e)) == Act(w, e, eff) && Moves(w.executions[e], eff.next)
  {
    hide Inv, OnEnter, Act, Ready, MayAct;
    MayEnter(sha, w, e);
    EnterEffect(sha, w, e);
    var eff := OnEnter(sha, w.journal, e, w.executions[e]);
    ReadyMoves(sha, w, e, eff);
  }

  /** The execution is at work or finished, for the same intent. */
  predicate Moves(x: Execution, y: Execution) { y.id == x.id && (IsActive(y.point) || y.point.Finished?) }

  lemma ReadyMoves(sha: Sha256, w: World, e: nat, eff: Effect)
    requires ActReady(sha, w, e, eff)
    ensures e in w.executions && Moves(w.executions[e], eff.next)
  {
    hide Inv, RecordInv, PointInv, NewEventInv, Evolves, EventsOf, IsActivity, IsActive;
  }

  lemma ContinueMoves(sha: Sha256, w: World, e: nat, answer: Answer, now: nat)
    requires Inv(sha, w) && e in w.executions && IsActive(w.executions[e].point)
    ensures var v := Step(sha, w, Continue(e, answer, now));
            v.executions.Keys == w.executions.Keys && Moves(w.executions[e], v.executions[e])
            && forall d :: d in w.executions && d != e ==> v.executions[d] == w.executions[d]
  {
    hide Inv, PointInv, Ready, MayAct, React, EffectInv, Act, IsActive, Step;
    ContinueStep(sha, w, e, answer, now);
    var x := w.executions[e];
    if React(sha, w.journal, e, x, answer, now).Some? {
      MayContinue(sha, w, e);
      IsReady(sha, w, x);
      ReactKeeps(sha, w.journal, w.trace, e, x, answer, now);
      var eff := React(sha, w.journal, e, x, answer, now).value;
      ReadyMoves(sha, w, e, eff);
      ActShape(w, e, eff);
    }
  }

  lemma ResumeKeeps(sha: Sha256, s: Process, call: nat)
    requires ProcessInv(sha, s) && MayResume(s, call) && call < |s.execs|
    ensures ProcessInv(sha, Next(sha, s, Resume(call)))
    ensures var after := Next(sha, s, Resume(call)).world.executions;
            s.execs[call] in after && !after[s.execs[call]].point.Queued?
  {
    LockIsFree(sha, s, call);
    ReachedInv(sha, s.world);
    hide Reached, Q.Reached, Inv, Q.HasResolved, Step, OnEnter, Act, Left, IsActive, Paired;
    var e := s.execs[call];
    EnterMoves(sha, s.world, e);
    OneStep(sha, s.world, Enter(e));
    var eff := OnEnter(sha, s.world.journal, e, s.world.executions[e]);
    ActShape(s.world, e, eff);
    var q := Q.Step(s.queue, Q.Resume(call));
    QueueStays(s.queue, Q.Resume(call));
    LeftKeeps(q, call, eff.next.point);
    var r := Next(sha, s, Resume(call));
    assert r.queue == Left(q, call, eff.next.point);
    Aligned(s);
    MovedMatches(eff.next.point);
    PairedAfter(s, r, call);
  }

  lemma Aligned(s: Process)
    requires Paired(s)
    ensures |s.execs| == |s.queue.calls| && forall c :: 0 <= c < |s.execs| ==> CallIs(s, c)
  {
    hide CallIs, IsOver;
  }

  lemma MovedMatches(point: Point)
    requires IsActive(point) || point.Finished?
    ensures Matches(if point.Finished? then Q.Done else Q.Running, point) && !point.Queued?
  {
  }

  /** What leaving does to a running call. */
  lemma LeftKeeps(q: Q.Queue<Text>, call: nat, point: Point)
    requires Q.Reached(q) && call < |q.calls| && q.calls[call].status == Q.Running
    ensures var r := Left(q, call, point);
            && Q.Reached(r) && |r.calls| == |q.calls|
            && r.calls[call] == q.calls[call].(status := if point.Finished? then Q.Done else Q.Running)
            && forall c :: 0 <= c < |q.calls| && c != call ==> r.calls[c] == q.calls[c]
  {
    QueueStays(q, Q.Leave(call, false));
    hide Q.Reached;
  }

  lemma GoesKeeps(sha: Sha256, s: Process, call: nat, answer: Answer, now: nat)
    requires ProcessInv(sha, s) && call < |s.execs| == |s.queue.calls| && s.queue.calls[call].status == Q.Running
    ensures ProcessInv(sha, Next(sha, s, Goes(call, answer, now)))
  {
    ReachedInv(sha, s.world);
    hide Reached, Q.Reached, Inv, Step, Left, IsActive, Paired;
    Aligned(s);
    var e := s.execs[call];
    assert CallIs(s, call);
    ContinueMoves(sha, s.world, e, answer, now);
    OneStep(sha, s.world, Continue(e, answer, now));
    var r := Next(sha, s, Goes(call, answer, now));
    var point := r.world.executions[e].point;
    LeftKeeps(s.queue, call, point);
    MovedMatches(point);
    PairedAfter(s, r, call);
  }

  lemma ExecuteShape(sha: Sha256, w: World, e: nat, id: Text)
    requires e !in w.executions && e in Step(sha, w, ExecuteCall(e, id)).executions
    ensures var after := Step(sha, w, ExecuteCall(e, id)).executions;
            after == w.executions[e := after[e]] && after[e].id == id && after[e].point.Queued?
  {
    hide GetById;
  }

  /** A new call waits. */
  lemma OneMorePair(s: Process, r: Process, e: nat, id: Text)
    requires Paired(s) && e !in s.world.executions && e in r.world.executions
    requires r.world.executions == s.world.executions[e := r.world.executions[e]]
    requires r.world.executions[e].id == id && r.world.executions[e].point.Queued?
    requires r.queue == Q.Step(s.queue, Q.Arrive(id)) && r.execs == s.execs + [e]
    ensures Paired(r)
  {
    Aligned(s);
    hide IsOver, IsActive;
    forall c | 0 <= c < |r.execs| ensures CallIs(r, c) {
      if c < |s.execs| {
        assert CallIs(s, c);
      }
    }
    assert r.execs[|s.execs|] == e;
    forall d | d in r.world.executions && !IsOver(r.world.executions[d].point) ensures d in r.execs {
      if d != e {
        assert d in s.execs;
      }
    }
    forall c, d | 0 <= c < d < |r.execs| ensures r.execs[c] != r.execs[d] {
      assert CallIs(s, c);
    }
  }

  lemma ExecuteKeeps(sha: Sha256, s: Process, e: nat, id: Text)
    requires ProcessInv(sha, s)
    ensures ProcessInv(sha, Next(sha, s, Execute(e, id)))
  {
    hide Reached, Q.Reached, Q.Step, Step, Paired;
    OneStep(sha, s.world, ExecuteCall(e, id));
    QueueStays(s.queue, Q.Arrive(id));
    var w := Step(sha, s.world, ExecuteCall(e, id));
    if e !in s.world.executions && e in w.executions {
      ExecuteShape(sha, s.world, e, id);
      OneMorePair(s, Next(sha, s, Execute(e, id)), e, id);
    }
  }

  lemma CallsKeepExecutions(sha: Sha256, w: World, a: Action)
    requires a.ReserveCall? || a.ApproveCall? || a.DeclineCall?
    ensures Step(sha, w, a).executions == w.executions
  {
    hide Reserve, Approve, Decline, GetById;
  }

  lemma ElsewhereKeeps(sha: Sha256, s: Process, a: Action)
    requires ProcessInv(sha, s)
    ensures ProcessInv(sha, Next(sha, s, Elsewhere(a)))
  {
    hide Reached, Q.Reached, Matches;
    OneStep(sha, s.world, a);
    QueueStarts();
    if a.ReserveCall? || a.ApproveCall? || a.DeclineCall? {
      hide Step;
      CallsKeepExecutions(sha, s.world, a);
      var r := Next(sha, s, Elsewhere(a));
      forall c | 0 <= c < |r.execs| ensures CallIs(r, c) {
        assert CallIs(s, c);
      }
    }
  }

  lemma NextKeeps(sha: Sha256, s: Process, d: Deed)
    requires ProcessInv(sha, s)
    ensures ProcessInv(sha, Next(sha, s, d))
  {
    match d
    case Execute(e, id) => ExecuteKeeps(sha, s, e, id);
    case Resume(call) => MayKeep(sha, s, d);
    case Goes(call, _, _) => MayKeep(sha, s, d);
    case Elsewhere(a) => ElsewhereKeeps(sha, s, a);
  }

  lemma MayKeep(sha: Sha256, s: Process, d: Deed)
    requires ProcessInv(sha, s) && (d.Resume? || d.Goes?)
    ensures ProcessInv(sha, Next(sha, s, d))
  {
    Aligned(s);
    hide ProcessInv, Acted, MayResume;
    if Next(sha, s, d) != s {
      match d
      case Resume(call) => ResumeKeeps(sha, s, call);
      case Goes(call, answer, now) => GoesKeeps(sha, s, call, answer, now);
    }
  }

  /** The invariant holds of every process of every run; in particular each is a run of
      the protocol and a run of the queue. */
  lemma RunsKeepInv(sha: Sha256, s: Process)
    requires Runs(sha, s)
    ensures ProcessInv(sha, s)
  {
    hide Next;
    var good := iset r: Process | ProcessInv(sha, r);
    StartsPaired(sha);
    hide ProcessInv;
    forall r: Process, d | r in good
      ensures Next(sha, r, d) in good
    {
      NextKeeps(sha, r, d);
    }
    assert ClosedProcesses(sha, good) && START_PROCESS in good;
  }

  lemma StartsPaired(sha: Sha256)
    ensures ProcessInv(sha, START_PROCESS)
  {
    QueueStarts();
  }

  // ----------------------------------------------------------- main results

  /** Every run with the promise chains is a run of the protocol with its table of
      locks, so what holds of all those runs holds of these; and a call that may resume
      does enter. */
  lemma ChainsImplementLocks(sha: Sha256, s: Process, call: nat)
    requires Runs(sha, s)
    ensures Reached(sha, s.world) && Q.Reached(s.queue)
    ensures MayResume(s, call) ==>
              call < |s.execs| && s.execs[call] in s.world.executions
              && s.world.executions[s.execs[call]].point.Queued?
              && s.execs[call] in Next(sha, s, Resume(call)).world.executions
              && !Next(sha, s, Resume(call)).world.executions[s.execs[call]].point.Queued?
  {
    RunsKeepInv(sha, s);
    if MayResume(s, call) {
      LockIsFree(sha, s, call);
      ResumeKeeps(sha, s, call);
    }
  }

  /** Executions of one intent enter in the order in which they were called: when one
      has entered, every one called before it has finished. */
  lemma EnterInOrder(sha: Sha256, s: Process, c: nat, d: nat)
    requires Runs(sha, s) && c < d < |s.execs|
    ensures s.execs[c] in s.world.executions && s.execs[d] in s.world.executions
    ensures var x, y := s.world.executions[s.execs[c]], s.world.executions[s.execs[d]];
            x.id == y.id && !y.point.Queued? ==> x.point.Finished?
  {
    RunsKeepInv(sha, s);
    hide Reached, Runs;
    Aligned(s);
    assert CallIs(s, c) && CallIs(s, d);
    if s.queue.calls[c].key == s.queue.calls[d].key {
      Q.ExclusiveAndFifo(s.queue, c, d);
    }
  }
}
