/** Every action of the write-intent protocol keeps the invariant, and lets the
    records of the journal only evolve. */
module WriteProtocolSteps {
  import opened JsText
  import opened CanonicalJson
  import opened WriteRecords
  import opened WriteProtocol
  import opened WriteProtocolInvariant

  /** What has become of the journal. */
  ghost predicate JournalEvolves(before: Journal, after: Journal) {
    forall id :: id in before ==> id in after && Evolves(before[id], after[id])
  }

  lemma EvolvesReflexive(r: Record)
    ensures Evolves(r, r)
  {
  }

  lemma JournalUpdateEvolves(journal: Journal, id: Text, r: Record)
    requires id in journal ==> Evolves(journal[id], r)
    ensures JournalEvolves(journal, journal[id := r])
  {
    hide Evolves;
    forall d | d in journal ensures Evolves(journal[d], journal[id := r][d]) {
      EvolvesReflexive(journal[d]);
    }
  }

  // --------------------------------------------------- acts of an execution

  /** Execution e may act: it is about to enter runExclusive, or inside it. */
  predicate MayAct(w: World, e: nat) {
    e in w.executions && w.executions[e].id in w.journal &&
    var x := w.executions[e];
    if x.id in w.holder then w.holder[x.id] == e && IsActive(x.point) else x.point.Queued?
  }

  ghost predicate ActReady(sha: Sha256, w: World, e: nat, eff: Effect) {
    Inv(sha, w) && MayAct(w, e) &&
    var x := w.executions[e];
    EffectInv(sha, w.trace, w.journal[x.id], e, x, eff)
  }

  lemma ActShape(sha: Sha256, w: World, e: nat, eff: Effect)
    requires ActReady(sha, w, e, eff)
    ensures var id := w.executions[e].id;
            var v := Act(w, e, eff);
            && eff.next.id == id
            && v.trace == w.trace + EventsOf(eff)
            && id in v.journal && v.journal[id] == RecordAfter(w.journal[id], eff)
            && v.journal == w.journal[id := RecordAfter(w.journal[id], eff)]
            && v.executions == w.executions[e := eff.next]
  {
    SameId(sha, w, e, eff);
    hide ActReady, MayAct, IsActive, Act, EventsOf;
    TraceAfter(w, e, eff);
    JournalAfter(w, e, eff);
  }

  lemma JournalAfter(w: World, e: nat, eff: Effect)
    requires eff.next.id in w.journal
    ensures Act(w, e, eff).journal == w.journal[eff.next.id := RecordAfter(w.journal[eff.next.id], eff)]
    ensures Act(w, e, eff).executions == w.executions[e := eff.next]
  {
    UpdateSame(w.journal, eff.next.id);
  }

  lemma SameId(sha: Sha256, w: World, e: nat, eff: Effect)
    requires ActReady(sha, w, e, eff)
    ensures e in w.executions && w.executions[e].id in w.journal && eff.next.id == w.executions[e].id
  {
    hide Inv, RecordInv, PointInv, NewEventInv, Evolves, EventsOf, IsActivity;
  }

  lemma UpdateSame(journal: Journal, id: Text)
    requires id in journal
    ensures journal == journal[id := journal[id]]
  {
  }

  lemma TraceAfter(w: World, e: nat, eff: Effect)
    ensures Act(w, e, eff).trace == w.trace + EventsOf(eff)
  {
    if eff.write.None? {
      assert w.trace + [] + eff.events == w.trace + eff.events;
      assert [] + eff.events == eff.events;
    } else {
      assert w.trace + [Durable(eff.next.id, eff.write.value)] + eff.events == w.trace + EventsOf(eff);
    }
  }

  lemma ActEvolves(sha: Sha256, w: World, e: nat, eff: Effect)
    requires ActReady(sha, w, e, eff)
    ensures JournalEvolves(w.journal, Act(w, e, eff).journal)
  {
    hide Inv, RecordInv, PointInv, NewEventInv, Evolves, Act, JournalEvolves;
    ActShape(sha, w, e, eff);
    var id := w.executions[e].id;
    JournalUpdateEvolves(w.journal, id, RecordAfter(w.journal[id], eff));
  }

  lemma ActRecords(sha: Sha256, w: World, e: nat, eff: Effect)
    requires ActReady(sha, w, e, eff)
    ensures var v := Act(w, e, eff); forall id :: id in v.journal ==> RecordInv(sha, v.trace, id, v.journal[id])
  {
    hide RecordInv, PointInv, NewEventInv, Evolves, Act, ExecInv, EventInv, Quiet;
    ActShape(sha, w, e, eff);
    var v := Act(w, e, eff);
    forall id | id in v.journal ensures RecordInv(sha, v.trace, id, v.journal[id]) {
      if id != w.executions[e].id {
        RecordInvGrows(sha, w.trace, EventsOf(eff), id, w.journal[id]);
      }
    }
  }

  lemma ActedExecution(sha: Sha256, w: World, e: nat, eff: Effect)
    requires ActReady(sha, w, e, eff)
    ensures ExecInv(Act(w, e, eff), e, eff.next)
  {
    hide Inv, RecordInv, PointInv, NewEventInv, EventsOf, IsActivity, MayBecome;
    ActShape(sha, w, e, eff);
    ExecOf(sha, w, e);
  }

  lemma OtherExecution(sha: Sha256, w: World, e: nat, eff: Effect, d: nat)
    requires ActReady(sha, w, e, eff) && d in w.executions && d != e
    ensures ExecInv(Act(w, e, eff), d, w.executions[d])
  {
    hide Inv, RecordInv, PointInv, NewEventInv, EventsOf, IsActivity, MayBecome, IsActive;
    ActShape(sha, w, e, eff);
    ExecOf(sha, w, d);
    var y := w.executions[d];
    if IsActive(y.point) {
      PointInvGrows(w.trace, EventsOf(eff), w.journal[y.id], d, y);
    }
  }

  lemma ActExecutions(sha: Sha256, w: World, e: nat, eff: Effect)
    requires ActReady(sha, w, e, eff)
    ensures var v := Act(w, e, eff); forall d :: d in v.executions ==> ExecInv(v, d, v.executions[d])
  {
    hide Inv, EffectInv, ExecInv, EventsOf, IsActive, Act;
    ActShape(sha, w, e, eff);
    ActedExecution(sha, w, e, eff);
    var v := Act(w, e, eff);
    forall d | d in v.executions && d != e ensures ExecInv(v, d, v.executions[d]) {
      OtherExecution(sha, w, e, eff, d);
    }
  }

  lemma ActHolders(sha: Sha256, w: World, e: nat, eff: Effect)
    requires ActReady(sha, w, e, eff)
    ensures HoldersInv(Act(w, e, eff))
  {
    hide RecordInv, PointInv, NewEventInv, EventInv, Quiet, IsActivity, EventsOf, Evolves, ExecInv;
  }

  lemma NewEventFits(journal: Journal, trace: seq<Event>, i: nat, id: Text)
    requires i < |trace| && id in journal && NewEventInv(journal[id], trace, i, id)
    ensures EventInv(journal, trace, i)
  {
    hide DurableBefore, Before, CheckedBefore, Holds;
  }

  lemma ActEvents(sha: Sha256, w: World, e: nat, eff: Effect)
    requires ActReady(sha, w, e, eff)
    ensures var v := Act(w, e, eff); forall i :: 0 <= i < |v.trace| ==> EventInv(v.journal, v.trace, i)
  {
    hide RecordInv, PointInv, NewEventInv, EventInv, Quiet, IsActivity, EventsOf, Evolves, ExecInv, Act;
    ActShape(sha, w, e, eff);
    ActEvolves(sha, w, e, eff);
    var v := Act(w, e, eff);
    forall i | 0 <= i < |v.trace| ensures EventInv(v.journal, v.trace, i) {
      if i < |w.trace| {
        EventInvGrows(w.journal, v.journal, w.trace, EventsOf(eff), i);
      } else {
        NewEventFits(v.journal, v.trace, i, w.executions[e].id);
      }
    }
  }

  lemma ReturnedHasResult(w: World, i: nat)
    requires i < |w.trace| && EventInv(w.journal, w.trace, i) && w.trace[i].Returned?
    ensures w.trace[i].id in w.journal && w.journal[w.trace[i].id].result.Some?
  {
  }

  /** An act is activity only for its own intent. */
  lemma NoForeignActivity(r: Record, trace: seq<Event>, i: nat, id: Text, other: Text)
    requires i < |trace| && NewEventInv(r, trace, i, id) && other != id
    ensures !IsActivity(trace[i], other)
  {
    hide DurableBefore, Before, CheckedBefore, Holds;
  }

  /** The events of an act after one that returns are no activity, and an act on a
      record with a result has none. */
  lemma OwnEventsQuiet(trace: seq<Event>, eff: Effect, own: Text, i: nat, j: nat)
    requires i < j < |trace + EventsOf(eff)| && |trace| <= j && (trace + EventsOf(eff))[i].Returned?
    requires i < |trace| ==> forall k :: 0 <= k < |eff.events| ==> !IsActivity(eff.events[k], own)
    requires forall k, l :: 0 <= k < l < |eff.events| && eff.events[k].Returned? ==> !IsActivity(eff.events[l], own)
    ensures !IsActivity((trace + EventsOf(eff))[j], own)
  {
    var after := trace + EventsOf(eff);
    var start := |trace| + |EventsOf(eff)| - |eff.events|;
    if j >= start {
      assert after[j] == eff.events[j - start];
      if i >= |trace| {
        assert i >= start && after[i] == eff.events[i - start];
      }
    }
  }

  lemma ActQuiet(sha: Sha256, w: World, e: nat, eff: Effect)
    requires ActReady(sha, w, e, eff)
    ensures Quiet(Act(w, e, eff).trace)
  {
    hide RecordInv, PointInv, NewEventInv, EventInv, IsActivity, EventsOf, Evolves, ExecInv, Act, IsActive;
    ActShape(sha, w, e, eff);
    var trace := Act(w, e, eff).trace;
    var own := w.executions[e].id;
    var s := RecordAfter(w.journal[own], eff);
    forall i, j | 0 <= i < j < |trace| && trace[i].Returned? ensures !IsActivity(trace[j], trace[i].id) {
      if j < |w.trace| {
        assert w.trace[i] == trace[i] && w.trace[j] == trace[j];
      } else if trace[i].id != own {
        NoForeignActivity(s, trace, j, own, trace[i].id);
      } else {
        if i < |w.trace| {
          assert w.trace[i] == trace[i];
          ReturnedHasResult(w, i);
        }
        OwnEventsQuiet(w.trace, eff, own, i, j);
      }
    }
  }

  lemma ActKeepsInv(sha: Sha256, w: World, e: nat, eff: Effect)
    requires ActReady(sha, w, e, eff)
    ensures Inv(sha, Act(w, e, eff))
  {
    hide RecordInv, ExecInv, EventInv, Quiet, EffectInv, Act, IsActive;
    ActRecords(sha, w, e, eff);
    ActExecutions(sha, w, e, eff);
    ActHolders(sha, w, e, eff);
    ActEvents(sha, w, e, eff);
    ActQuiet(sha, w, e, eff);
  }

  // ----------------------------------------------- reserve, approve, decline

  predicate IsVerdict(event: Event, id: Text, r: Record) {
    event.WasApproved? || (event == WasDeclined(id) && r.phase.Declined?)
  }

  function Added(id: Text, r: Record, events: seq<Event>): seq<Event> { [Durable(id, r)] + events }

  /** What a call that writes a record must establish. */
  ghost predicate PutReady(sha: Sha256, w: World, id: Text, r: Record, events: seq<Event>) {
    && Inv(sha, w)
    && RecordInv(sha, w.trace + Added(id, r, events), id, r)
    && (id in w.journal ==> Evolves(w.journal[id], r) && (r == w.journal[id] || w.journal[id].phase.AwaitingApproval?))
    && (forall k :: 0 <= k < |events| ==> IsVerdict(events[k], id, r))
  }

  lemma PutShape(sha: Sha256, w: World, id: Text, r: Record, events: seq<Event>)
    requires PutReady(sha, w, id, r, events)
    ensures var v := Put(w, id, r, events);
            v.trace == w.trace + Added(id, r, events) && JournalEvolves(w.journal, v.journal)
            && v.journal == w.journal[id := r] && v.executions == w.executions && v.holder == w.holder
  {
    hide Inv, RecordInv, Evolves, JournalEvolves, IsVerdict;
    assert Put(w, id, r, events).trace == w.trace + Added(id, r, events);
    JournalUpdateEvolves(w.journal, id, r);
  }

  lemma VerdictFits(journal: Journal, trace: seq<Event>, i: nat, id: Text)
    requires i < |trace| && id in journal && IsVerdict(trace[i], id, journal[id])
    ensures EventInv(journal, trace, i)
  {
  }

  lemma DurableFits(journal: Journal, trace: seq<Event>, i: nat)
    requires i < |trace| && trace[i].Durable?
    ensures EventInv(journal, trace, i)
  {
  }

  lemma PutEvents(sha: Sha256, w: World, id: Text, r: Record, events: seq<Event>)
    requires PutReady(sha, w, id, r, events)
    ensures var v := Put(w, id, r, events); forall i :: 0 <= i < |v.trace| ==> EventInv(v.journal, v.trace, i)
  {
    hide RecordInv, EventInv, Quiet, Evolves, ExecInv, Put, IsVerdict;
    PutShape(sha, w, id, r, events);
    var v := Put(w, id, r, events);
    forall i | 0 <= i < |v.trace| ensures EventInv(v.journal, v.trace, i) {
      if i < |w.trace| {
        EventInvGrows(w.journal, v.journal, w.trace, Added(id, r, events), i);
      } else if i == |w.trace| {
        DurableFits(v.journal, v.trace, i);
      } else {
        assert v.trace[i] == events[i - |w.trace| - 1];
        VerdictFits(v.journal, v.trace, i, id);
      }
    }
  }

  predicate IsPassive(event: Event) {
    !event.PrepareCalled? && !event.ReconcileCalled? && !event.SubmitCalled? && !event.Threw? && !event.Returned?
  }

  lemma QuietGrows(trace: seq<Event>, more: seq<Event>)
    requires Quiet(trace) && forall k :: 0 <= k < |more| ==> IsPassive(more[k])
    ensures Quiet(trace + more)
  {
    var after := trace + more;
    forall i, j | 0 <= i < j < |after| && after[i].Returned? ensures !IsActivity(after[j], after[i].id) {
      if j >= |trace| {
        assert IsPassive(more[j - |trace|]);
      }
    }
  }

  lemma PutQuiet(sha: Sha256, w: World, id: Text, r: Record, events: seq<Event>)
    requires PutReady(sha, w, id, r, events)
    ensures Quiet(Put(w, id, r, events).trace)
  {
    hide RecordInv, EventInv, IsActivity, Evolves, ExecInv, Put, Quiet;
    PutShape(sha, w, id, r, events);
    QuietGrows(w.trace, Added(id, r, events));
  }

  lemma PutExecution(sha: Sha256, w: World, id: Text, r: Record, events: seq<Event>, e: nat)
    requires PutReady(sha, w, id, r, events) && e in w.executions
    ensures ExecInv(Put(w, id, r, events), e, w.executions[e])
  {
    hide RecordInv, EventInv, Quiet, MayBecome, Put, IsVerdict, Added;
    PutShape(sha, w, id, r, events);
    var x := w.executions[e];
    assert ExecInv(w, e, x);
    if IsActive(x.point) {
      WorkingNotWaiting(w.trace, w.journal[x.id], e, x);
      PointInvGrows(w.trace, Added(id, r, events), w.journal[x.id], e, x);
    }
  }

  lemma WorkingNotWaiting(trace: seq<Event>, r: Record, e: nat, x: Execution)
    requires PointInv(trace, r, e, x) && IsActive(x.point)
    ensures !r.phase.AwaitingApproval?
  {
  }

  lemma PutRecords(sha: Sha256, w: World, id: Text, r: Record, events: seq<Event>)
    requires PutReady(sha, w, id, r, events)
    ensures var v := Put(w, id, r, events); forall d :: d in v.journal ==> RecordInv(sha, v.trace, d, v.journal[d])
  {
    hide RecordInv, EventInv, Quiet, Evolves, ExecInv, Put, IsVerdict;
    PutShape(sha, w, id, r, events);
    var v := Put(w, id, r, events);
    forall d | d in v.journal && d != id ensures RecordInv(sha, v.trace, d, v.journal[d]) {
      RecordInvGrows(sha, w.trace, Added(id, r, events), d, w.journal[d]);
    }
  }

  lemma PutKeepsInv(sha: Sha256, w: World, id: Text, r: Record, events: seq<Event>)
    requires PutReady(sha, w, id, r, events)
    ensures Inv(sha, Put(w, id, r, events)) && JournalEvolves(w.journal, Put(w, id, r, events).journal)
  {
    hide RecordInv, ExecInv, EventInv, Quiet, Put, IsActive, Evolves, IsVerdict, JournalEvolves;
    PutShape(sha, w, id, r, events);
    PutRecords(sha, w, id, r, events);
    PutEvents(sha, w, id, r, events);
    PutQuiet(sha, w, id, r, events);
    forall e | e in w.executions ensures ExecInv(Put(w, id, r, events), e, w.executions[e]) {
      PutExecution(sha, w, id, r, events, e);
    }
  }

  // ---------------------------------------------------------------- actions

  lemma NewRecordInv(sha: Sha256, trace: seq<Event>, key: Text, intent: Intent, now: nat)
    requires ValidIntent(intent)
    ensures RecordInv(sha, trace, sha(key), NewRecord(sha, sha(key), intent, now))
  {
    hide Canonical, IntentJson;
  }

  lemma ReserveNew(sha: Sha256, journal: Journal, key: Text, intent: Intent, now: nat)
    requires Reserve(sha, journal, key, intent, now).Ok? && sha(key) !in journal
    ensures Reserve(sha, journal, key, intent, now) == Ok(NewRecord(sha, sha(key), intent, now))
    ensures ValidIntent(intent) && |journal| < MAX_RECORDS
  {
    hide Canonical, IntentJson, ValidPersisted, Utf8, NewRecord;
  }

  lemma ReserveKeepsInv(sha: Sha256, w: World, key: Text, intent: Intent, now: nat)
    requires Inv(sha, w)
    ensures var v := Step(sha, w, ReserveCall(key, intent, now)); Inv(sha, v) && JournalEvolves(w.journal, v.journal)
  {
    hide Inv, RecordInv, Evolves, Reserve, NewRecord, ValidIntent, Put;
    JournalSame(w.journal);
    if Reserve(sha, w.journal, key, intent, now).Ok? && sha(key) !in w.journal {
      ReserveNew(sha, w.journal, key, intent, now);
      var r := NewRecord(sha, sha(key), intent, now);
      NewRecordInv(sha, w.trace + Added(sha(key), r, []), key, intent, now);
      PutKeepsInv(sha, w, sha(key), r, []);
    }
  }

  lemma JournalSame(journal: Journal)
    ensures JournalEvolves(journal, journal)
  {
  }

  lemma ApprovedInv(sha: Sha256, trace: seq<Event>, r: Record, id: Text, fingerprint: Text, now: nat)
    requires RecordInv(sha, trace, id, r) && Approve(r, fingerprint, now).Ok?
    ensures var s := Approve(r, fingerprint, now).value;
            Evolves(r, s) && (s == r || r.phase.AwaitingApproval?)
            && RecordInv(sha, trace + Added(id, s, [WasApproved(id, fingerprint)]), id, s)
  {
    hide Fingerprint, BuildResult, ValidIntent, ValidPreparedFields, DurableBefore, AcceptedBefore;
    var s := Approve(r, fingerprint, now).value;
    var more := Added(id, s, [WasApproved(id, fingerprint)]);
    if s == r {
      RecordInvGrows(sha, trace, more, id, r);
    } else {
      assert (trace + more)[|trace| + 1] == WasApproved(id, fingerprint);
    }
  }

  lemma ApproveKeepsInv(sha: Sha256, w: World, id: Text, fingerprint: Text, now: nat)
    requires Inv(sha, w)
    ensures var v := Step(sha, w, ApproveCall(id, fingerprint, now));
            Inv(sha, v) && JournalEvolves(w.journal, v.journal)
  {
    hide RecordInv, ExecInv, EventInv, Quiet, IsActive, Evolves, Approve, Put, ValidPersisted;
    JournalSame(w.journal);
    if GetById(sha, w.journal, id).Ok? {
      var r := w.journal[id];
      if Approve(r, fingerprint, now).Ok? {
        ApprovedInv(sha, w.trace, r, id, fingerprint, now);
        PutKeepsInv(sha, w, id, Approve(r, fingerprint, now).value, [WasApproved(id, fingerprint)]);
      }
    }
  }

  lemma DeclinedInv(sha: Sha256, trace: seq<Event>, r: Record, id: Text, now: nat)
    requires RecordInv(sha, trace, id, r) && Decline(r, now).Ok?
    ensures var s := Decline(r, now).value;
            Evolves(r, s) && r.phase.AwaitingApproval? && s.phase.Declined?
            && RecordInv(sha, trace + Added(id, s, [WasDeclined(id)]), id, s)
  {
    hide Fingerprint, BuildResult, ValidIntent, ValidPreparedFields, DurableBefore, AcceptedBefore;
  }

  lemma DeclineKeepsInv(sha: Sha256, w: World, id: Text, now: nat)
    requires Inv(sha, w)
    ensures var v := Step(sha, w, DeclineCall(id, now)); Inv(sha, v) && JournalEvolves(w.journal, v.journal)
  {
    hide RecordInv, ExecInv, EventInv, Quiet, IsActive, Evolves, Decline, Put, ValidPersisted;
    JournalSame(w.journal);
    if GetById(sha, w.journal, id).Ok? {
      var r := w.journal[id];
      if Decline(r, now).Ok? {
        DeclinedInv(sha, w.trace, r, id, now);
        PutKeepsInv(sha, w, id, Decline(r, now).value, [WasDeclined(id)]);
      }
    }
  }

  /** A new execution waits in the queue. */
  lemma QueueKeepsInv(sha: Sha256, w: World, e: nat, id: Text)
    requires Inv(sha, w) && id in w.journal && e !in w.executions
    ensures Inv(sha, w.(executions := w.executions[e := Execution(id, w.journal[id].intent, Queued, None, false)]))
  {
    hide RecordInv, EventInv, Quiet, ExecInv, IsActive, HoldersInv;
    var x := Execution(id, w.journal[id].intent, Queued, None, false);
    var v := w.(executions := w.executions[e := x]);
    forall d | d in w.executions ensures ExecInv(v, d, w.executions[d]) {
      SameExecution(w, v, d, w.executions[d]);
    }
    QueuedExecution(v, e, x);
    SameHolders(w, e, x);
  }

  lemma SameHolders(w: World, e: nat, x: Execution)
    requires HoldersInv(w) && e !in w.executions
    ensures HoldersInv(w.(executions := w.executions[e := x]))
  {
  }

  lemma SameExecution(w: World, v: World, e: nat, x: Execution)
    requires ExecInv(w, e, x) && v.journal == w.journal && v.holder == w.holder && v.trace == w.trace
    ensures ExecInv(v, e, x)
  {
  }

  lemma QueuedExecution(w: World, e: nat, x: Execution)
    requires x.point.Queued? && x.id in w.journal && x.intent == w.journal[x.id].intent
    ensures ExecInv(w, e, x)
  {
  }

  lemma ExecuteCallKeepsInv(sha: Sha256, w: World, e: nat, id: Text)
    requires Inv(sha, w)
    ensures var v := Step(sha, w, ExecuteCall(e, id)); Inv(sha, v) && JournalEvolves(w.journal, v.journal)
  {
    hide Inv, ValidPersisted, JournalEvolves;
    JournalSame(w.journal);
    if GetById(sha, w.journal, id).Ok? && e !in w.executions {
      QueueKeepsInv(sha, w, e, id);
    }
  }

  lemma MayEnter(sha: Sha256, w: World, e: nat)
    requires Inv(sha, w) && e in w.executions && w.executions[e].point.Queued? && w.executions[e].id !in w.holder
    ensures MayAct(w, e) && Ready(sha, w.journal, w.trace, w.executions[e])
  {
    hide RecordInv, EventInv, Quiet, PointInv;
    assert ExecInv(w, e, w.executions[e]);
  }

  lemma EnterKeepsInv(sha: Sha256, w: World, e: nat)
    requires Inv(sha, w)
    ensures var v := Step(sha, w, Enter(e)); Inv(sha, v) && JournalEvolves(w.journal, v.journal)
  {
    hide Inv, JournalEvolves, OnEnter, EffectInv, Act, MayAct, Ready;
    JournalSame(w.journal);
    if e in w.executions && w.executions[e].point.Queued? && w.executions[e].id !in w.holder {
      MayEnter(sha, w, e);
      EnterEffect(sha, w, e);
      var eff := OnEnter(sha, w.journal, e, w.executions[e]);
      ActKeepsInv(sha, w, e, eff);
      ActEvolves(sha, w, e, eff);
    }
  }

  lemma EnterEffect(sha: Sha256, w: World, e: nat)
    requires Inv(sha, w) && MayAct(w, e) && Ready(sha, w.journal, w.trace, w.executions[e])
    requires w.executions[e].point.Queued?
    ensures ActReady(sha, w, e, OnEnter(sha, w.journal, e, w.executions[e]))
  {
    hide Inv, OnEnter, EffectInv, RecordInv;
    EnterKeeps(sha, w.journal, w.trace, e, w.executions[e]);
  }

  lemma OnlyActiveReact(sha: Sha256, journal: Journal, e: nat, x: Execution, answer: Answer, now: nat)
    requires React(sha, journal, e, x, answer, now).Some?
    ensures IsActive(x.point)
  {
    hide OnWrite;
  }

  lemma MayContinue(sha: Sha256, w: World, e: nat)
    requires Inv(sha, w) && e in w.executions && IsActive(w.executions[e].point)
    ensures MayAct(w, e) && Ready(sha, w.journal, w.trace, w.executions[e])
    ensures PointInv(w.trace, w.journal[w.executions[e].id], e, w.executions[e])
  {
    hide RecordInv, EventInv, Quiet, PointInv;
    assert ExecInv(w, e, w.executions[e]);
  }

  lemma ContinueStep(sha: Sha256, w: World, e: nat, answer: Answer, now: nat)
    ensures Step(sha, w, Continue(e, answer, now)) ==
            if e in w.executions && React(sha, w.journal, e, w.executions[e], answer, now).Some? then
              Act(w, e, React(sha, w.journal, e, w.executions[e], answer, now).value)
            else w
  {
    hide React, Act;
  }

  lemma ContinueKeepsInv(sha: Sha256, w: World, e: nat, answer: Answer, now: nat)
    requires Inv(sha, w)
    ensures var v := Step(sha, w, Continue(e, answer, now)); Inv(sha, v) && JournalEvolves(w.journal, v.journal)
  {
    hide Inv, PointInv, Ready, MayAct, JournalEvolves, React, EffectInv, Act, IsActive, Step;
    JournalSame(w.journal);
    ContinueStep(sha, w, e, answer, now);
    if e in w.executions && React(sha, w.journal, e, w.executions[e], answer, now).Some? {
      var x := w.executions[e];
      OnlyActiveReact(sha, w.journal, e, x, answer, now);
      MayContinue(sha, w, e);
      IsReady(sha, w, x);
      ReactKeeps(sha, w.journal, w.trace, e, x, answer, now);
      var eff := React(sha, w.journal, e, x, answer, now).value;
      ActKeepsInv(sha, w, e, eff);
      ActEvolves(sha, w, e, eff);
    }
  }

  lemma IsReady(sha: Sha256, w: World, x: Execution)
    requires Ready(sha, w.journal, w.trace, x)
    ensures x.id in w.journal
  {
  }

  lemma CrashEvents(sha: Sha256, w: World)
    requires Inv(sha, w)
    ensures forall i :: 0 <= i <= |w.trace| ==> EventInv(w.journal, w.trace + [Crashed], i)
  {
    hide RecordInv, EventInv, PointInv, Evolves, JournalEvolves, ExecInv, Quiet;
    JournalSame(w.journal);
    JournalEvolvesMeans(w.journal, w.journal);
    forall i | 0 <= i <= |w.trace| ensures EventInv(w.journal, w.trace + [Crashed], i) {
      if i < |w.trace| {
        EventInvGrows(w.journal, w.journal, w.trace, [Crashed], i);
      } else {
        CrashFits(w.journal, w.trace + [Crashed], i);
      }
    }
  }

  lemma LostExecution(sha: Sha256, w: World, v: World, e: nat)
    requires Inv(sha, w) && e in w.executions && v.journal == w.journal
    ensures ExecInv(v, e, Lose(w.executions[e]))
  {
    hide RecordInv, EventInv, PointInv, Quiet;
    assert ExecInv(w, e, w.executions[e]);
  }

  lemma CrashKeepsInv(sha: Sha256, w: World)
    requires Inv(sha, w)
    ensures var v := Step(sha, w, Crash); Inv(sha, v) && JournalEvolves(w.journal, v.journal)
  {
    hide RecordInv, EventInv, ExecInv, JournalEvolves, Quiet, Lose, IsActive;
    JournalSame(w.journal);
    var v := Step(sha, w, Crash);
    forall id | id in v.journal ensures RecordInv(sha, v.trace, id, v.journal[id]) {
      RecordInvGrows(sha, w.trace, [Crashed], id, w.journal[id]);
    }
    CrashEvents(sha, w);
    QuietGrows(w.trace, [Crashed]);
    forall e | e in v.executions ensures ExecInv(v, e, v.executions[e]) {
      LostExecution(sha, w, v, e);
    }
  }

  lemma JournalEvolvesMeans(before: Journal, after: Journal)
    requires JournalEvolves(before, after)
    ensures forall id :: id in before ==> id in after && Evolves(before[id], after[id])
  {
  }

  lemma CrashFits(journal: Journal, trace: seq<Event>, i: nat)
    requires i < |trace| && trace[i].Crashed?
    ensures EventInv(journal, trace, i)
  {
  }

  /** Every step keeps the invariant, and the journal only evolves. */
  lemma StepKeepsInv(sha: Sha256, w: World, a: Action)
    requires Inv(sha, w)
    ensures Inv(sha, Step(sha, w, a)) && JournalEvolves(w.journal, Step(sha, w, a).journal)
  {
    hide Inv, JournalEvolves, Step;
    match a
    case ReserveCall(key, intent, now) => ReserveKeepsInv(sha, w, key, intent, now);
    case ApproveCall(id, fingerprint, now) => ApproveKeepsInv(sha, w, id, fingerprint, now);
    case DeclineCall(id, now) => DeclineKeepsInv(sha, w, id, now);
    case ExecuteCall(e, id) => ExecuteCallKeepsInv(sha, w, e, id);
    case Enter(e) => EnterKeepsInv(sha, w, e);
    case Continue(e, answer, now) => ContinueKeepsInv(sha, w, e, answer, now);
    case Crash => CrashKeepsInv(sha, w);
  }

  lemma JournalEvolvesTransitive(a: Journal, b: Journal, c: Journal)
    requires JournalEvolves(a, b) && JournalEvolves(b, c)
    ensures JournalEvolves(a, c)
  {
    hide Evolves;
    forall id | id in a ensures id in c && Evolves(a[id], c[id]) {
      EvolvesTransitive(a[id], b[id], c[id]);
    }
  }

  /** Every run keeps the invariant, and lets the records only evolve. */
  lemma LeadsKeepsInv(sha: Sha256, w: World, v: World)
    requires Inv(sha, w) && Leads(sha, w, v)
    ensures Inv(sha, v) && JournalEvolves(w.journal, v.journal)
  {
    hide Inv, JournalEvolves, Step;
    var good := iset u: World | Inv(sha, u) && JournalEvolves(w.journal, u.journal);
    JournalSame(w.journal);
    forall u: World, a | u in good
      ensures Step(sha, u, a) in good
    {
      StepKeepsInv(sha, u, a);
      JournalEvolvesTransitive(w.journal, u.journal, Step(sha, u, a).journal);
    }
    assert Closed(sha, good) && w in good;
  }

  // ------------------------------------------------------------------ quota

  lemma SameSize(journal: Journal, id: Text, r: Record)
    requires id in journal
    ensures |journal[id := r]| == |journal|
  {
    assert journal[id := r].Keys == journal.Keys;
  }

  /** An act rewrites only a record that is there. */
  lemma ReactWrites(sha: Sha256, journal: Journal, e: nat, x: Execution, answer: Answer, now: nat)
    requires React(sha, journal, e, x, answer, now).Some? && React(sha, journal, e, x, answer, now).value.write.Some?
    ensures x.id in journal && React(sha, journal, e, x, answer, now).value.next.id == x.id
  {
    hide ValidPersisted, Apply;
  }

  lemma EnterWritesNothing(sha: Sha256, journal: Journal, e: nat, x: Execution)
    ensures OnEnter(sha, journal, e, x).write.None?
  {
    hide GetById, BuildResult;
  }

  lemma StepKeepsQuota(sha: Sha256, w: World, a: Action)
    requires |w.journal| <= MAX_RECORDS
    ensures |Step(sha, w, a).journal| <= MAX_RECORDS
  {
    hide Reserve, Approve, Decline, OnEnter, React, ValidPersisted;
    match a
    case ReserveCall(key, intent, now) =>
      if Reserve(sha, w.journal, key, intent, now).Ok? && sha(key) !in w.journal {
        ReserveNew(sha, w.journal, key, intent, now);
      }
    case ApproveCall(id, fingerprint, now) =>
      if GetById(sha, w.journal, id).Ok? && Approve(w.journal[id], fingerprint, now).Ok? {
        SameSize(w.journal, id, Approve(w.journal[id], fingerprint, now).value);
      }
    case DeclineCall(id, now) =>
      if GetById(sha, w.journal, id).Ok? && Decline(w.journal[id], now).Ok? {
        SameSize(w.journal, id, Decline(w.journal[id], now).value);
      }
    case Enter(e) =>
      if e in w.executions {
        EnterWritesNothing(sha, w.journal, e, w.executions[e]);
      }
    case Continue(e, answer, now) =>
      if e in w.executions && React(sha, w.journal, e, w.executions[e], answer, now).Some? {
        var eff := React(sha, w.journal, e, w.executions[e], answer, now).value;
        if eff.write.Some? {
          ReactWrites(sha, w.journal, e, w.executions[e], answer, now);
          SameSize(w.journal, eff.next.id, eff.write.value);
        }
      }
    case _ =>
  }

  /** No run fills the journal beyond its quota. */
  lemma QuotaKept(sha: Sha256, w: World)
    requires Reached(sha, w)
    ensures |w.journal| <= MAX_RECORDS
  {
    hide Step;
    var good := iset u: World | |u.journal| <= MAX_RECORDS;
    forall u: World, a | u in good
      ensures Step(sha, u, a) in good
    {
      StepKeepsQuota(sha, u, a);
    }
    assert Closed(sha, good) && START in good;
  }

  /** A step leads on, and from a reached world to a reached world. */
  lemma OneStep(sha: Sha256, w: World, a: Action)
    ensures Leads(sha, w, Step(sha, w, a))
    ensures Reached(sha, w) ==> Reached(sha, Step(sha, w, a))
  {
    hide Step;
  }

  lemma StartInv(sha: Sha256)
    ensures Inv(sha, START)
  {
  }

  /** The invariant holds of every world of every run. */
  lemma ReachedInv(sha: Sha256, w: World)
    requires Reached(sha, w)
    ensures Inv(sha, w)
  {
    hide Inv;
    StartInv(sha);
    LeadsKeepsInv(sha, START, w);
  }
}
