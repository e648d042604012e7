/** Waiting for a transaction, as neo-service.ts does it: the loop that polls until a
    deadline, and the count of waits under way. */
module Polling {
  import opened JsText

  // ------------------------------------------------------------- environment

  /** The error classes that the loop tells apart. */
  datatype Failure = Deadline | Aborted | Retryable(text: Text) | Fatal(text: Text)

  type Reply = Result<Text, Failure>

  /** What happens to one call made through the service's `withRpcDeadline`: first the
      network magic is awaited, then the operation is sent if its limit, which was fixed
      before that wait, is positive, and it answers after `delay`; the timer may fire
      late. */
  datatype Call = Call(magicMs: nat, magic: Option<Failure>, aborted: bool, delay: nat, reply: Reply, lateMs: nat)

  /** The wait between two turns: the timer fires, perhaps late, or the signal aborts. */
  datatype Sleep = Slept(lateMs: nat) | AbortedAfter(ms: nat)

  /** What happens in one turn of the loop. */
  datatype Turn = Turn(aborted: bool, height: Call, transaction: Call, log: Call, sleep: Sleep)

  /** The arguments of one wait, the time at which it starts and what happens in each
      of its turns. */
  datatype Wait = Wait(turns: nat -> Turn, start: int, timeoutMs: int, pollIntervalMs: int, rpcTimeoutMs: int,
                       includeLog: bool)
  {
    predicate Valid() { timeoutMs > 0 && pollIntervalMs > 0 }

    function Due(): int { start + timeoutMs }
  }

  /** The time a call takes, what it gives, and whether the operation was sent. */
  function Called(call: Call, timeoutMs: int): (r: (nat, Reply, bool))
    ensures r.2 ==> timeoutMs > 0
  {
    if call.magic.Some? then (call.magicMs, Err(call.magic.value), false)
    else if timeoutMs <= 0 then (call.magicMs, Err(Deadline), false)
    else if call.aborted then (call.magicMs, Err(Aborted), false)
    else if call.delay < timeoutMs then (call.magicMs + call.delay, call.reply, true)
    else (call.magicMs + timeoutMs + call.lateMs, Err(Deadline), true)
  }

  // -------------------------------------------------------------- one turn

  datatype WaitResult =
    | Confirmed(blockHeight: Text, transaction: Option<Text>, applicationLog: Option<Reply>)
    | Unconfirmed
    | Failed(failure: Failure)

  /** One attempt: the time it took, its result or its error, and whether the node was
      polled for the height. */
  function Attempt(w: Wait, turn: Turn, now: int): (r: (nat, Result<WaitResult, Failure>, bool))
    ensures r.1.Ok? ==> r.1.value.Confirmed? && r.2
    ensures r.2 ==> now < w.Due() && turn.height.magicMs <= r.0
  {
    var (ms, height, polled) := Called(turn.height, Min(w.rpcTimeoutMs, w.Due() - now));
    if height.Err? then (ms, Err(height.error), polled)
    else if !polled then assert false; (ms, Err(Deadline), polled)
    else
      var (ms2, transaction, _) := Called(turn.transaction, Min(w.rpcTimeoutMs, w.Due() - (now + ms)));
      if transaction.Err? && !transaction.error.Deadline? then (ms + ms2, Err(transaction.error), polled)
      else
        var details := if transaction.Ok? then Some(transaction.value) else None;
        if !w.includeLog then (ms + ms2, Ok(Confirmed(height.value, details, None)), polled)
        else
          var (ms3, log, _) := Called(turn.log, Min(w.rpcTimeoutMs, w.Due() - (now + ms + ms2)));
          (ms + ms2 + ms3, Ok(Confirmed(height.value, details, Some(log))), polled)
  }

  /** The turn neither confirms nor ends the wait: there is no answer yet, or an error
      that is worth another poll. */
  predicate GoesOn(w: Wait, turn: Turn, at: int) {
    var outcome := Attempt(w, turn, at).1;
    !turn.aborted && outcome.Err? && (outcome.error.Retryable? || outcome.error.Deadline?)
  }

  /** The turn polls a node. */
  predicate Polls(w: Wait, turn: Turn, at: int) { !turn.aborted && Attempt(w, turn, at).2 }

  /** The time at which the attempt of a turn is over. */
  function EndOf(w: Wait, turn: Turn, at: int): (end: int)
    ensures at <= end
  {
    if turn.aborted then at else at + Attempt(w, turn, at).0
  }

  /** The time after the wait that follows a turn. */
  function AfterSleep(w: Wait, turn: Turn, at: int): int {
    var end := EndOf(w, turn, at);
    match turn.sleep
    case Slept(lateMs) => end + Min(w.pollIntervalMs, w.Due() - end) + lateMs
    case AbortedAfter(ms) => end + ms
  }

  /** The turn is followed by another. */
  predicate Repeats(w: Wait, turn: Turn, at: int) {
    GoesOn(w, turn, at) && EndOf(w, turn, at) < w.Due() && turn.sleep.Slept? && AfterSleep(w, turn, at) <= w.Due()
  }

  /** The turn ends the wait with this result at this time. */
  predicate Concludes(w: Wait, turn: Turn, at: int, result: WaitResult, now: int) {
    var outcome := Attempt(w, turn, at).1;
    var end := EndOf(w, turn, at);
    match result
    case Confirmed(_, _, _) => !turn.aborted && outcome == Ok(result) && now == end
    case Unconfirmed =>
      GoesOn(w, turn, at) &&
      if end >= w.Due() then now == end
      else turn.sleep.Slept? && now == AfterSleep(w, turn, at) > w.Due()
    case Failed(failure) =>
      || (failure.Aborted? && turn.aborted && now == at)
      || (failure.Aborted? && GoesOn(w, turn, at) && end < w.Due() && turn.sleep.AbortedAfter?
          && now == AfterSleep(w, turn, at))
      || (!turn.aborted && outcome == Err(failure) && (failure.Aborted? || failure.Fatal?) && now == end)
  }

  // --------------------------------------------------------------- the loop

  /** The times at which the turns of a wait begin: each after the first when the wait
      that follows the turn before is over, which is not after the deadline. */
  predicate History(w: Wait, begun: seq<int>) {
    && begun != [] && begun[0] == w.start
    && forall k :: 0 <= k < |begun| - 1 ==>
         Repeats(w, w.turns(k), begun[k]) && begun[k + 1] == AfterSleep(w, w.turns(k), begun[k])
  }

  /** The time of the poll of a turn, if it polls: when the magic has arrived. */
  function PollOf(w: Wait, turn: Turn, at: int): seq<int> {
    if Polls(w, turn, at) then [at + turn.height.magicMs] else []
  }

  /** The time at which a turn begins, if it polls. */
  function StartOf(w: Wait, turn: Turn, at: int): seq<int> { if Polls(w, turn, at) then [at] else [] }

  /** The times at which a node was polled. */
  function PollTimes(w: Wait, begun: seq<int>): seq<int> {
    if begun == [] then []
    else
      var k := |begun| - 1;
      PollTimes(w, begun[..k]) + PollOf(w, w.turns(k), begun[k])
  }

  /** The times at which the turns that polled a node began. */
  function PollStarts(w: Wait, begun: seq<int>): seq<int> {
    if begun == [] then []
    else
      var k := |begun| - 1;
      PollStarts(w, begun[..k]) + StartOf(w, w.turns(k), begun[k])
  }

  predicate Apart(ts: seq<int>, gap: int) { forall i :: 0 <= i < |ts| - 1 ==> ts[i] + gap <= ts[i + 1] }

  /** The times are this far apart, and before the deadline. */
  predicate Spaced(ts: seq<int>, gap: int, start: int, deadline: int) {
    Apart(ts, gap) && forall i :: 0 <= i < |ts| ==> start <= ts[i] < deadline
  }

  /** `pollForTransaction`. `begun` lists the times at which turns of the loop begin and
      `polls` the times at which polls are sent. */
  method PollForTransaction(w: Wait) returns (result: WaitResult, now: int, polls: seq<int>, begun: seq<int>)
    requires w.Valid()
    // The turns follow each other as they should, and the last one ends the wait.
    ensures History(w, begun)
    ensures Concludes(w, w.turns(|begun| - 1), begun[|begun| - 1], result, now)
    ensures polls == PollTimes(w, begun)
    // It polls no more than once in an interval, so only so often within the timeout.
    ensures Apart(polls, w.pollIntervalMs)
    ensures |polls| <= (w.timeoutMs - 1) / w.pollIntervalMs + 1
    // It gives up only at the deadline or later, and fails as aborted only on a signal.
    ensures result.Unconfirmed? ==> now >= w.Due()
    ensures result == Failed(Aborted) ==> MayAbort(w.turns(|begun| - 1))
  {
    hide Attempt, PollTimes, PollStarts, MayAbort;
    var deadline := w.start + w.timeoutMs;
    now, polls, begun := w.start, [], [];
    assert PollTimes(w, []) == [] by { NoPolls(w); }
    while now <= deadline
      invariant w.start <= now
      invariant if begun == [] then now == w.start else History(w, begun)
      invariant begun != [] ==>
                  var turn := w.turns(|begun| - 1);
                  var at := begun[|begun| - 1];
                  && GoesOn(w, turn, at) && EndOf(w, turn, at) < deadline && turn.sleep.Slept?
                  && now == AfterSleep(w, turn, at)
      invariant polls == PollTimes(w, begun)
      decreases deadline - now
    {
      var turn := w.turns(|begun|);
      ghost var before := begun;
      ghost var at := now;
      begun := begun + [now];
      OneMoreTurn(w, before, now, begun);
      if turn.aborted {
        Pace(w, begun);
        AbortedTurn(turn);
        return Failed(Aborted), now, polls, begun;
      }
      var (ms, outcome, polled) := Attempt(w, turn, now);
      if polled { polls := polls + [now + turn.height.magicMs]; }
      now := now + ms;
      Pace(w, begun);
      if outcome.Ok? { return outcome.value, now, polls, begun; }
      if outcome.error.Aborted? {
        AbortIsSignalled(w, turn, at);
        return Failed(Aborted), now, polls, begun;
      }
      if outcome.error.Deadline? {
        if now >= deadline { return Unconfirmed, now, polls, begun; }
      } else if outcome.error.Fatal? {
        return Failed(outcome.error), now, polls, begun;
      }
      var remainingMs := deadline - now;
      if remainingMs <= 0 { return Unconfirmed, now, polls, begun; }
      match turn.sleep {
        case AbortedAfter(sleptMs) =>
          AbortedTurn(turn);
          return Failed(Aborted), now + sleptMs, polls, begun;
        case Slept(lateMs) =>
          now := now + Min(w.pollIntervalMs, remainingMs) + lateMs;
      }
    }
    Pace(w, begun);
    return Unconfirmed, now, polls, begun;
  }

  /** The signal aborts the turn or the wait after it, or a call reports an abort. */
  predicate MayAbort(turn: Turn) {
    || turn.aborted || turn.sleep.AbortedAfter? || CallAborts(turn.height) || CallAborts(turn.transaction)
  }

  predicate CallAborts(call: Call) { call.aborted || call.reply == Err(Aborted) || call.magic == Some(Aborted) }

  lemma AbortIsSignalled(w: Wait, turn: Turn, now: int)
    requires Attempt(w, turn, now).1 == Err(Aborted)
    ensures MayAbort(turn)
  {
  }

  lemma AbortedTurn(turn: Turn)
    requires turn.aborted || turn.sleep.AbortedAfter?
    ensures MayAbort(turn)
  {
  }

  lemma NoPolls(w: Wait)
    ensures PollTimes(w, []) == []
  {
  }

  lemma OneMoreTurn(w: Wait, begun: seq<int>, now: int, all: seq<int>)
    requires all == begun + [now]
    requires if begun == [] then now == w.start else History(w, begun)
    requires begun != [] ==>
               var turn := w.turns(|begun| - 1);
               Repeats(w, turn, begun[|begun| - 1]) && now == AfterSleep(w, turn, begun[|begun| - 1])
    ensures History(w, all)
    ensures PollTimes(w, all) == PollTimes(w, begun) + PollOf(w, w.turns(|begun|), now)
  {
    hide Repeats, EndOf, AfterSleep, PollOf, PollTimes;
    LastTurn(w, all);
    assert all[..|begun|] == begun;
  }

  lemma LastTurn(w: Wait, begun: seq<int>)
    requires begun != []
    ensures var k := |begun| - 1;
            && PollTimes(w, begun) == PollTimes(w, begun[..k]) + PollOf(w, w.turns(k), begun[k])
            && PollStarts(w, begun) == PollStarts(w, begun[..k]) + StartOf(w, w.turns(k), begun[k])
  {
    hide PollOf, StartOf;
  }

  // ------------------------------------------------------- the pace of polls

  /** In a history, polls and the turns that make them keep the interval, and a poll is
      sent before the attempt of its turn is over. */
  lemma {:induction false} PollsKeepPace(w: Wait, begun: seq<int>)
    requires w.Valid() && History(w, begun)
    ensures var k := |begun| - 1;
            var polls, starts := PollTimes(w, begun), PollStarts(w, begun);
            && w.start <= begun[k]
            && |polls| == |starts| && Apart(polls, w.pollIntervalMs)
            && Spaced(starts, w.pollIntervalMs, w.start, w.Due())
            && (polls != [] ==> polls[|polls| - 1] <= EndOf(w, w.turns(k), begun[k]))
            && (starts != [] ==> starts[|starts| - 1] <= begun[k])
  {
    hide Repeats, AfterSleep, Polls, EndOf, PollTimes, PollStarts;
    var k := |begun| - 1;
    LastTurn(w, begun);
    PollWithin(w, w.turns(k), begun[k]);
    if k == 0 {
      assert begun[..k] == [];
      NothingYet(w);
    } else {
      var c := begun[..k];
      PollsKeepPace(w, c);
      assert c[k - 1] == begun[k - 1];
      SleepsLongEnough(w, w.turns(k - 1), begun[k - 1]);
    }
  }

  lemma SleepsLongEnough(w: Wait, turn: Turn, at: int)
    requires w.Valid() && Repeats(w, turn, at)
    ensures var next := AfterSleep(w, turn, at);
            at <= EndOf(w, turn, at) <= next && (next < w.Due() ==> EndOf(w, turn, at) + w.pollIntervalMs <= next)
  {
    hide Attempt, GoesOn;
  }

  lemma NothingYet(w: Wait)
    ensures PollTimes(w, []) == [] == PollStarts(w, [])
  {
  }

  lemma PollWithin(w: Wait, turn: Turn, at: int)
    ensures Polls(w, turn, at) ==> at < w.Due() && at + turn.height.magicMs <= EndOf(w, turn, at)
  {
    hide Attempt;
  }

  lemma Pace(w: Wait, begun: seq<int>)
    requires w.Valid() && History(w, begun)
    ensures Apart(PollTimes(w, begun), w.pollIntervalMs)
    ensures |PollTimes(w, begun)| <= (w.timeoutMs - 1) / w.pollIntervalMs + 1
  {
    hide History, PollTimes, PollStarts, EndOf;
    PollsKeepPace(w, begun);
    SpacedCount(PollStarts(w, begun), w.pollIntervalMs, w.start, w.timeoutMs);
  }

  /** What happens in the turns decides the whole wait: its turns, its result and when
      it ends. */
  lemma OneHistory(w: Wait, begun: seq<int>, result: WaitResult, now: int,
                   begun': seq<int>, result': WaitResult, now': int)
    requires History(w, begun) && Concludes(w, w.turns(|begun| - 1), begun[|begun| - 1], result, now)
    requires History(w, begun') && Concludes(w, w.turns(|begun'| - 1), begun'[|begun'| - 1], result', now')
    ensures begun == begun' && result == result' && now == now'
  {
    hide Attempt, EndOf, AfterSleep, Repeats, Concludes, GoesOn;
    var n := Min(|begun|, |begun'|);
    SameTurns(w, begun, begun', n);
    NotBoth(w, w.turns(n - 1), begun[n - 1]);
    assert |begun| == |begun'|;
    assert begun == begun[..n] == begun'[..n] == begun';
  }

  lemma {:induction false} SameTurns(w: Wait, begun: seq<int>, begun': seq<int>, n: nat)
    requires History(w, begun) && History(w, begun') && 0 < n <= |begun| && n <= |begun'|
    ensures begun[..n] == begun'[..n]
  {
    hide Attempt, EndOf, AfterSleep, Repeats;
    if n > 1 {
      SameTurns(w, begun, begun', n - 1);
      assert begun[n - 2] == begun[..n - 1][n - 2] == begun'[n - 2];
      assert Repeats(w, w.turns(n - 2), begun[n - 2]) && Repeats(w, w.turns(n - 2), begun'[n - 2]);
      assert begun[..n] == begun[..n - 1] + [begun[n - 1]];
      assert begun'[..n] == begun'[..n - 1] + [begun'[n - 1]];
    }
  }

  lemma NotBoth(w: Wait, turn: Turn, at: int)
    ensures forall r, now :: Concludes(w, turn, at, r, now) ==> !Repeats(w, turn, at)
    ensures forall r, now, r', now' :: Concludes(w, turn, at, r, now) && Concludes(w, turn, at, r', now') ==>
              r == r' && now == now'
  {
    hide Attempt;
  }

  // --------------------------------------- what the answers of the node decide

  /** The limit of a call that is made at this time. */
  function LimitAt(w: Wait, at: int): int { Min(w.rpcTimeoutMs, w.Due() - at) }

  /** The call is sent within its limit and without an abort, and answered in time. */
  predicate Answers(call: Call, limit: int) {
    call.magic.None? && !call.aborted && call.delay < limit
  }

  /** What a call gives and how long it takes: the error of the magic, a deadline that
      has passed already, an abort, the answer of the node, or the timer. */
  predicate Gives(call: Call, limit: int, reply: Reply, ms: nat) {
    || (call.magic.Some? && reply == Err(call.magic.value) && ms == call.magicMs)
    || (call.magic.None? && limit <= 0 && reply == Err(Deadline) && ms == call.magicMs)
    || (call.magic.None? && limit > 0 && call.aborted && reply == Err(Aborted) && ms == call.magicMs)
    || (Answers(call, limit) && reply == call.reply && ms == call.magicMs + call.delay)
    || (call.magic.None? && !call.aborted && 0 < limit <= call.delay
        && reply == Err(Deadline) && ms == call.magicMs + limit + call.lateMs)
  }

  /** When the transaction is asked for, after the height was answered. */
  function AfterHeight(turn: Turn, at: int): int { at + turn.height.magicMs + turn.height.delay }

  /** The node gives the height in time, and the call for the transaction gives it or
      runs into its deadline. */
  ghost predicate Confirms(w: Wait, turn: Turn, at: int) {
    && !turn.aborted && Answers(turn.height, LimitAt(w, at)) && turn.height.reply.Ok?
    && exists reply, ms :: Gives(turn.transaction, LimitAt(w, AfterHeight(turn, at)), reply, ms)
                           && (reply.Ok? || reply == Err(Deadline))
  }

  lemma CalledGives(call: Call, limit: int, reply: Reply, ms: nat)
    ensures Gives(call, limit, reply, ms) <==> Called(call, limit).0 == ms && Called(call, limit).1 == reply
    ensures Called(call, limit).2 && Called(call, limit).1.Ok? <==> Answers(call, limit) && call.reply.Ok?
  {
  }

  /** A turn confirms exactly when the node says so, with what the node says. */
  lemma TurnConfirms(w: Wait, turn: Turn, at: int)
    ensures !turn.aborted && Attempt(w, turn, at).1.Ok? <==> Confirms(w, turn, at)
    ensures Confirms(w, turn, at) ==> Tells(w, turn, at, Attempt(w, turn, at).1.value, EndOf(w, turn, at))
  {
    var limit := LimitAt(w, at);
    var (ms, height, polled) := Called(turn.height, limit);
    CalledGives(turn.height, limit, height, ms);
    if Answers(turn.height, limit) && turn.height.reply.Ok? {
      CalledGives(turn.height, limit, turn.height.reply, turn.height.magicMs + turn.height.delay);
      var next := AfterHeight(turn, at);
      var (ms2, transaction, _) := Called(turn.transaction, LimitAt(w, next));
      hide Called;
      CalledGives(turn.transaction, LimitAt(w, next), transaction, ms2);
      if r, m :| Gives(turn.transaction, LimitAt(w, next), r, m) {
        CalledGives(turn.transaction, LimitAt(w, next), r, m);
      }
      var (ms3, log, _) := Called(turn.log, LimitAt(w, next + ms2));
      CalledGives(turn.log, LimitAt(w, next + ms2), log, ms3);
    }
  }

  /** The result holds what the node said: the height, the transaction exactly when it
      came in time, and what became of the call for the log exactly when one was asked
      for. The attempt ends with the last of these calls. */
  ghost predicate Tells(w: Wait, turn: Turn, at: int, result: WaitResult, end: int) {
    && result.Confirmed? && turn.height.reply == Ok(result.blockHeight)
    && exists reply, ms ::
         && Gives(turn.transaction, LimitAt(w, AfterHeight(turn, at)), reply, ms)
         && (result.transaction.Some? <==> reply.Ok?) && (reply.Ok? ==> result.transaction == Some(reply.value))
         && LogTells(w, turn, AfterHeight(turn, at) + ms, result.applicationLog, end)
  }

  ghost predicate LogTells(w: Wait, turn: Turn, at: int, log: Option<Reply>, end: int) {
    if w.includeLog then
      exists reply, ms :: Gives(turn.log, LimitAt(w, at), reply, ms) && log == Some(reply) && end == at + ms
    else log == None && end == at
  }

  /** The turn fails with this error at this time: the call for the height fails, or the
      call for the transaction does with anything but its deadline. */
  ghost predicate FailsWith(w: Wait, turn: Turn, at: int, failure: Failure, end: int) {
    || (end >= at && Gives(turn.height, LimitAt(w, at), Err(failure), end - at))
    || (&& Answers(turn.height, LimitAt(w, at)) && turn.height.reply.Ok? && !failure.Deadline?
        && end >= AfterHeight(turn, at)
        && Gives(turn.transaction, LimitAt(w, AfterHeight(turn, at)), Err(failure), end - AfterHeight(turn, at)))
  }

  lemma TurnFails(w: Wait, turn: Turn, at: int, failure: Failure, end: int)
    requires !turn.aborted
    ensures FailsWith(w, turn, at, failure, end) <==>
            Attempt(w, turn, at).1 == Err(failure) && EndOf(w, turn, at) == end
  {
    var limit := LimitAt(w, at);
    var (ms, height, polled) := Called(turn.height, limit);
    CalledGives(turn.height, limit, height, ms);
    if end >= at { CalledGives(turn.height, limit, Err(failure), end - at); }
    if Answers(turn.height, limit) && turn.height.reply.Ok? {
      var next := AfterHeight(turn, at);
      var (ms2, transaction, _) := Called(turn.transaction, LimitAt(w, next));
      hide Called;
      CalledGives(turn.height, limit, turn.height.reply, turn.height.magicMs + turn.height.delay);
      CalledGives(turn.transaction, LimitAt(w, next), transaction, ms2);
      if end >= next { CalledGives(turn.transaction, LimitAt(w, next), Err(failure), end - next); }
    }
  }

  lemma {:induction false} RepeatsOrLast(w: Wait, begun: seq<int>, k: nat)
    requires History(w, begun) && k < |begun|
    ensures k == |begun| - 1 || Repeats(w, w.turns(k), begun[k])
  {
    hide Repeats;
  }

  lemma TurnDecides(w: Wait, turn: Turn, at: int, failure: Failure, end: int)
    requires !turn.aborted && FailsWith(w, turn, at, failure, end)
    ensures !Confirms(w, turn, at) && EndOf(w, turn, at) == end
    ensures failure.Fatal? || failure.Aborted? ==>
              && !Repeats(w, turn, at)
              && forall r, now :: Concludes(w, turn, at, r, now) ==> r == Failed(failure) && now == end
    ensures failure.Retryable? || failure.Deadline? ==>
              forall r, now :: Concludes(w, turn, at, r, now) ==> r == Unconfirmed || r == Failed(Aborted)
  {
    TurnConfirms(w, turn, at);
    TurnFails(w, turn, at, failure, end);
    hide Attempt, FailsWith, Confirms;
  }

  /** What the node answers decides the wait. It is confirmed exactly when the last turn
      is, with what the node said there, and no turn before was. A turn that fails goes
      on when its error is worth another poll or its deadline; any other error ends the
      wait with that error. */
  lemma NodeDecides(w: Wait, begun: seq<int>, result: WaitResult, now: int, k: nat, failure: Failure, end: int)
    requires History(w, begun) && Concludes(w, w.turns(|begun| - 1), begun[|begun| - 1], result, now)
    requires k < |begun|
    ensures var last := |begun| - 1;
            && (result.Confirmed? <==> Confirms(w, w.turns(last), begun[last]))
            && (result.Confirmed? ==> Tells(w, w.turns(last), begun[last], result, now))
            && (Confirms(w, w.turns(k), begun[k]) ==> k == last)
    ensures !w.turns(k).aborted && FailsWith(w, w.turns(k), begun[k], failure, end) ==>
              && !Confirms(w, w.turns(k), begun[k]) && EndOf(w, w.turns(k), begun[k]) == end
              && (failure.Fatal? || failure.Aborted? ==> k == |begun| - 1 && result == Failed(failure) && now == end)
              && (failure.Retryable? || failure.Deadline? ==>
                    k == |begun| - 1 ==> result == Unconfirmed || result == Failed(Aborted))
  {
    var last := |begun| - 1;
    RepeatsOrLast(w, begun, k);
    LastDecides(w, w.turns(last), begun[last], result, now);
    RepeatingTurn(w, w.turns(k), begun[k]);
    hide History, Attempt, FailsWith, Confirms, Tells, EndOf, Repeats, Concludes;
    if !w.turns(k).aborted && FailsWith(w, w.turns(k), begun[k], failure, end) {
      TurnDecides(w, w.turns(k), begun[k], failure, end);
    }
  }

  lemma LastDecides(w: Wait, turn: Turn, at: int, result: WaitResult, now: int)
    requires Concludes(w, turn, at, result, now)
    ensures result.Confirmed? <==> Confirms(w, turn, at)
    ensures result.Confirmed? ==> Tells(w, turn, at, result, now)
  {
    TurnConfirms(w, turn, at);
    hide Attempt, Confirms, Tells;
  }

  lemma RepeatingTurn(w: Wait, turn: Turn, at: int)
    ensures Repeats(w, turn, at) ==> !Confirms(w, turn, at)
  {
    TurnConfirms(w, turn, at);
    hide Attempt, Confirms;
  }

  // ------------------------------------------------- polls after the deadline

  /** The network magic arrives only when there is no time left, and the limit of the
      poll was fixed before that. */
  predicate MagicTooLate(w: Wait, turn: Turn, at: int) {
    && !turn.aborted && at < w.Due() && w.rpcTimeoutMs > 0
    && turn.height.magic.None? && !turn.height.aborted && turn.height.magicMs >= w.Due() - at
  }

  /** A poll is sent at or after the deadline exactly when the last turn begins before
      it and waits so long for the magic; and no poll before the last one is late. */
  lemma LatePolls(w: Wait, begun: seq<int>)
    requires w.Valid() && History(w, begun)
    ensures var polls := PollTimes(w, begun);
            && (forall i :: 0 <= i < |polls| - 1 ==> polls[i] < w.Due())
            && ((exists i :: 0 <= i < |polls| && polls[i] >= w.Due()) <==>
                MagicTooLate(w, w.turns(|begun| - 1), begun[|begun| - 1]))
  {
    hide Attempt, GoesOn, PollTimes, AfterSleep;
    var k := |begun| - 1;
    var polls := PollTimes(w, begun);
    LastTurn(w, begun);
    PollsWhen(w, w.turns(k), begun[k]);
    if k > 0 {
      EarlyPolls(w, begun[..k], w.turns(k - 1));
    } else {
      assert begun[..k] == [];
      NoPolls(w);
    }
    if Polls(w, w.turns(k), begun[k]) {
      assert polls[|polls| - 1] == begun[k] + w.turns(k).height.magicMs;
    }
  }

  lemma PollsWhen(w: Wait, turn: Turn, at: int)
    ensures Polls(w, turn, at) <==>
            !turn.aborted && at < w.Due() && w.rpcTimeoutMs > 0 && turn.height.magic.None? && !turn.height.aborted
  {
  }

  /** Before a turn that is not the first, every poll was sent in time. */
  lemma {:induction false} EarlyPolls(w: Wait, begun: seq<int>, turn: Turn)
    requires w.Valid() && History(w, begun) && turn == w.turns(|begun| - 1)
    requires Repeats(w, turn, begun[|begun| - 1])
    ensures forall i :: 0 <= i < |PollTimes(w, begun)| ==> PollTimes(w, begun)[i] < w.Due()
  {
    hide Attempt, GoesOn, PollTimes, AfterSleep;
    var k := |begun| - 1;
    LastTurn(w, begun);
    PollWithin(w, turn, begun[k]);
    if k > 0 {
      assert begun[..k][k - 1] == begun[k - 1];
      assert Repeats(w, w.turns(k - 1), begun[k - 1]);
      EarlyPolls(w, begun[..k], w.turns(k - 1));
    } else {
      assert begun[..k] == [];
      NoPolls(w);
    }
  }

  /** Once the magic has arrived it is known, and no later turn waits for it. */
  ghost predicate MagicIsKept(turns: nat -> Turn) {
    forall j: nat, k: nat :: j < k && turns(j).height.magic.None? ==> turns(k).height.magicMs == 0
  }

  /** So a late poll is the only poll of its wait: once the magic is known, every poll
      is sent before the deadline. */
  lemma LatePollIsOnlyPoll(w: Wait, begun: seq<int>)
    requires w.Valid() && History(w, begun) && MagicIsKept(w.turns)
    ensures var polls := PollTimes(w, begun);
            (exists i :: 0 <= i < |polls| && polls[i] >= w.Due()) ==> |polls| == 1
    ensures w.turns(0).height.magicMs == 0 && w.turns(0).height.magic.None? ==>
              Spaced(PollTimes(w, begun), w.pollIntervalMs, w.start, w.Due())
  {
    hide Attempt, Repeats, PollTimes, EndOf;
    var k := |begun| - 1;
    LatePolls(w, begun);
    PollsKeepPace(w, begun);
    LastTurn(w, begun);
    if MagicTooLate(w, w.turns(k), begun[k]) {
      NoMagicNoPolls(w, begun[..k]);
    }
    PollsAfterStart(w, begun);
  }

  lemma {:induction false} NoMagicNoPolls(w: Wait, begun: seq<int>)
    requires forall j :: 0 <= j < |begun| ==> w.turns(j).height.magic.Some?
    ensures PollTimes(w, begun) == []
  {
    hide Attempt, Polls;
    if begun != [] {
      PollsWhen(w, w.turns(|begun| - 1), begun[|begun| - 1]);
      NoMagicNoPolls(w, begun[..|begun| - 1]);
    }
  }

  lemma {:induction false} PollsAfterStart(w: Wait, begun: seq<int>)
    requires w.Valid() && History(w, begun)
    ensures forall i :: 0 <= i < |PollTimes(w, begun)| ==> w.start <= PollTimes(w, begun)[i]
  {
    hide Attempt, GoesOn, PollTimes, EndOf, AfterSleep;
    var k := |begun| - 1;
    LastTurn(w, begun);
    PollsKeepPace(w, begun);
    if k > 0 {
      assert begun[..k][k - 1] == begun[k - 1];
      PollsAfterStart(w, begun[..k]);
    } else {
      assert begun[..k] == [];
      NoPolls(w);
    }
  }

  /** A wait of a second in a fresh service, whose first request for the magic takes
      five seconds. */
  function SlowMagic(): Wait {
    var quick := Call(0, None, false, 0, Ok([]), 0);
    Wait(_ => Turn(false, quick.(magicMs := 5_000), quick, quick, Slept(0)), 0, 1_000, 1_000, 15_000, false)
  }

  /** Its only poll is sent four seconds after the deadline. */
  lemma PollAfterDeadline(begun: seq<int>, result: WaitResult, now: int)
    requires var w := SlowMagic();
             History(w, begun) && Concludes(w, w.turns(|begun| - 1), begun[|begun| - 1], result, now)
    ensures var w := SlowMagic(); w.Valid() && w.Due() == 1_000 && PollTimes(w, begun) == [5_000]
    ensures result == Confirmed([], None, None) && now == 5_000
  {
    var w := SlowMagic();
    assert Attempt(w, w.turns(0), 0) == (5_000, Ok(Confirmed([], None, None)), true);
    OneHistory(w, begun, result, now, [0], Confirmed([], None, None), 5_000);
    assert [0][..0] == [];
  }

  // --------------------------------------------------- how many fit

  lemma {:induction false} SpacedFrom(ts: seq<int>, gap: int, start: int, deadline: int, i: nat)
    requires Spaced(ts, gap, start, deadline) && i < |ts|
    ensures ts[i] >= start + i * gap
  {
    if i > 0 {
      SpacedFrom(ts, gap, start, deadline, i - 1);
      assert ts[i - 1] + gap <= ts[i];
      assert (i - 1) * gap + gap == i * gap;
    }
  }

  /** Times that far apart within the timeout are few. */
  lemma {:induction false} SpacedCount(ts: seq<int>, gap: int, start: int, timeoutMs: int)
    requires gap > 0 && timeoutMs > 0 && Spaced(ts, gap, start, start + timeoutMs)
    ensures |ts| <= (timeoutMs - 1) / gap + 1
    ensures (timeoutMs - 1) / gap + 1 <= timeoutMs / gap + 1
  {
    if ts != [] {
      var n := |ts| - 1;
      SpacedFrom(ts, gap, start, start + timeoutMs, n);
      Quotient(n, gap, timeoutMs - 1);
    }
    Larger(timeoutMs, gap);
  }

  lemma Quotient(n: nat, gap: int, x: int)
    requires gap > 0 && n * gap <= x
    ensures n <= x / gap
  {
    Smaller(n, x / gap + 1, gap);
  }

  lemma Larger(x: int, gap: int)
    requires gap > 0
    ensures (x - 1) / gap <= x / gap
  {
    Smaller((x - 1) / gap, x / gap + 1, gap);
  }

  lemma Smaller(a: int, b: int, g: int)
    requires g > 0 && a * g < b * g
    ensures a < b
  {
    if a >= b {
      Multiple(a - b, g);
    }
  }

  lemma Multiple(a: int, g: int)
    requires a >= 0 && g > 0
    ensures a * g >= 0
  {
  }

  // ------------------------------------------------------- waits under way

  datatype Limits = Limits(maxTransactionWaitMs: int, minTransactionPollIntervalMs: int,
                           maxConcurrentTransactionWaits: int)
  {
    predicate Valid() {
      maxTransactionWaitMs > 0 && minTransactionPollIntervalMs > 0 && maxConcurrentTransactionWaits > 0
    }
  }

  datatype Refusal = BadTimeout | BadPollInterval | TimeoutTooLong | PollIntervalTooShort | SignalAborted | TooManyWaits

  /** The checks that `waitForTransaction` makes before it counts the wait, in order. */
  function Refused(limits: Limits, active: int, timeoutMs: int, pollIntervalMs: int, aborted: bool): Option<Refusal> {
    if timeoutMs <= 0 then Some(BadTimeout)
    else if pollIntervalMs <= 0 then Some(BadPollInterval)
    else if timeoutMs > limits.maxTransactionWaitMs then Some(TimeoutTooLong)
    else if pollIntervalMs < limits.minTransactionPollIntervalMs then Some(PollIntervalTooShort)
    else if aborted then Some(SignalAborted)
    else if active >= limits.maxConcurrentTransactionWaits then Some(TooManyWaits)
    else None
  }

  /** What has become of a call of `waitForTransaction`. */
  datatype Stage = Rejected(refusal: Refusal) | UnderWay | Over(result: WaitResult)

  /** A call is made, or the wait of an earlier one ends: confirmed or not, failed or
      aborted. Calls are numbered as they come. */
  datatype Happening =
    | Calls(timeoutMs: int, pollIntervalMs: int, aborted: bool)
    | Settles(call: nat, result: WaitResult)

  /** The counter, and every call so far. */
  datatype Waits = Waits(active: int, calls: seq<Stage>)

  function Happens(limits: Limits, s: Waits, h: Happening): Waits {
    match h
    case Calls(timeoutMs, pollIntervalMs, aborted) =>
      var refusal := Refused(limits, s.active, timeoutMs, pollIntervalMs, aborted);
      if refusal.Some? then Waits(s.active, s.calls + [Rejected(refusal.value)])
      else Waits(s.active + 1, s.calls + [UnderWay])
    case Settles(call, result) =>
      if call < |s.calls| && s.calls[call].UnderWay? then Waits(s.active - 1, s.calls[call := Over(result)]) else s
  }

  function AfterAll(limits: Limits, s: Waits, hs: seq<Happening>): Waits
    decreases |hs|
  {
    if hs == [] then s else Happens(limits, AfterAll(limits, s, hs[..|hs| - 1]), hs[|hs| - 1])
  }

  /** How many calls are waiting. */
  function UnderWayIn(calls: seq<Stage>): nat {
    if calls == [] then 0
    else UnderWayIn(calls[..|calls| - 1]) + if calls[|calls| - 1].UnderWay? then 1 else 0
  }

  predicate Counted(limits: Limits, s: Waits) {
    s.active == UnderWayIn(s.calls) <= limits.maxConcurrentTransactionWaits
  }

  lemma {:induction false} OneLess(calls: seq<Stage>, call: nat, result: WaitResult)
    requires call < |calls| && calls[call].UnderWay?
    ensures UnderWayIn(calls[call := Over(result)]) == UnderWayIn(calls) - 1
  {
    var last := |calls| - 1;
    var after := calls[call := Over(result)];
    if call < last {
      OneLess(calls[..last], call, result);
      assert after[..last] == calls[..last][call := Over(result)];
    } else {
      assert after[..last] == calls[..last];
    }
  }

  lemma HappensKeepsCount(limits: Limits, s: Waits, h: Happening)
    requires limits.Valid() && Counted(limits, s)
    ensures Counted(limits, Happens(limits, s, h))
  {
    match h
    case Calls(_, _, _) =>
      var after := Happens(limits, s, h).calls;
      assert after[..|s.calls|] == s.calls;
    case Settles(call, result) =>
      if call < |s.calls| && s.calls[call].UnderWay? {
        OneLess(s.calls, call, result);
      }
  }

  lemma {:induction false} RunKeepsCount(limits: Limits, s: Waits, hs: seq<Happening>)
    requires limits.Valid() && Counted(limits, s)
    ensures Counted(limits, AfterAll(limits, s, hs))
    decreases |hs|
  {
    hide Happens, Counted;
    if hs != [] {
      RunKeepsCount(limits, s, hs[..|hs| - 1]);
      HappensKeepsCount(limits, AfterAll(limits, s, hs[..|hs| - 1]), hs[|hs| - 1]);
    }
  }

  lemma {:induction false} SomeUnderWay(calls: seq<Stage>)
    ensures UnderWayIn(calls) > 0 <==> exists i :: 0 <= i < |calls| && calls[i].UnderWay?
  {
    if calls != [] {
      var last := |calls| - 1;
      SomeUnderWay(calls[..last]);
      if i :| 0 <= i < |calls| && calls[i].UnderWay? {
        assert i < last ==> calls[..last][i].UnderWay?;
      }
    }
  }

  /** However calls and endings interleave: the counter is the number of calls that
      wait, at most the maximum; it is back at zero when none does; and a call that
      passes the other checks is refused exactly when the maximum is waiting. */
  lemma WaitsAreCounted(limits: Limits, hs: seq<Happening>, timeoutMs: int, pollIntervalMs: int)
    requires limits.Valid()
    ensures var s := AfterAll(limits, Waits(0, []), hs);
            && s.active == UnderWayIn(s.calls) <= limits.maxConcurrentTransactionWaits
            && (s.active == 0 <==> forall i :: 0 <= i < |s.calls| ==> !s.calls[i].UnderWay?)
            && (0 < timeoutMs <= limits.maxTransactionWaitMs
                && pollIntervalMs >= limits.minTransactionPollIntervalMs ==>
                  (Refused(limits, s.active, timeoutMs, pollIntervalMs, false) == Some(TooManyWaits) <==>
                   UnderWayIn(s.calls) == limits.maxConcurrentTransactionWaits))
  {
    RunKeepsCount(limits, Waits(0, []), hs);
    SomeUnderWay(AfterAll(limits, Waits(0, []), hs).calls);
  }

  /** A call is counted exactly when its times are within the limits, it is not aborted
      and fewer than the maximum wait; and only a call that is so but for the last is told
      of too many waits. */
  lemma CountedWhen(limits: Limits, s: Waits, timeoutMs: int, pollIntervalMs: int, aborted: bool)
    requires limits.Valid() && Counted(limits, s)
    ensures var refusal := Refused(limits, s.active, timeoutMs, pollIntervalMs, aborted);
            var inTime := 0 < timeoutMs <= limits.maxTransactionWaitMs
                          && pollIntervalMs >= limits.minTransactionPollIntervalMs;
            && (refusal.None? <==> inTime && !aborted && UnderWayIn(s.calls) < limits.maxConcurrentTransactionWaits)
            && (refusal == Some(TooManyWaits) <==>
                inTime && !aborted && UnderWayIn(s.calls) == limits.maxConcurrentTransactionWaits)
            && (refusal == Some(SignalAborted) <==> inTime && aborted)
  {
    hide UnderWayIn;
  }

  /** What others do does not end the wait of a call. */
  predicate NotOf(call: nat, h: Happening) { h.Settles? ==> h.call != call }

  lemma {:induction false} OthersKeepWait(limits: Limits, s: Waits, hs: seq<Happening>, call: nat)
    requires call < |s.calls| && s.calls[call].UnderWay? && forall h :: h in hs ==> NotOf(call, h)
    ensures var r := AfterAll(limits, s, hs).calls; call < |r| && r[call].UnderWay?
    decreases |hs|
  {
    hide Refused;
    if hs != [] {
      var last := |hs| - 1;
      assert hs[last] in hs;
      OthersKeepWait(limits, s, hs[..last], call);
    }
  }

  lemma {:induction false} RunsJoin(limits: Limits, s: Waits, a: seq<Happening>, b: seq<Happening>)
    ensures AfterAll(limits, s, a + b) == AfterAll(limits, AfterAll(limits, s, a), b)
    decreases |b|
  {
    hide Happens;
    if b == [] {
      assert a + b == a;
    } else {
      RunsJoin(limits, s, a, b[..|b| - 1]);
      assert (a + b)[..|a + b| - 1] == a + b[..|b| - 1];
    }
  }

  lemma RunOfOne(limits: Limits, s: Waits, h: Happening)
    ensures AfterAll(limits, s, [h]) == Happens(limits, s, h)
  {
    hide Happens;
    assert [h][..0] == [];
  }

  /** The part of the service object that counts waits. */
  class TransactionWaits {
    var activeTransactionWaits: int
    ghost var calls: seq<Stage>
    const limits: Limits

    ghost function State(): Waits
      reads this
    {
      Waits(activeTransactionWaits, calls)
    }

    ghost predicate Valid()
      reads this
    {
      limits.Valid() && Counted(limits, State())
    }

    constructor (limits: Limits)
      requires limits.Valid()
      ensures Valid() && State() == Waits(0, []) && this.limits == limits
    {
      activeTransactionWaits, calls := 0, [];
      this.limits := limits;
    }

    /** `waitForTransaction` up to its `try`. */
    method Begin(timeoutMs: int, pollIntervalMs: int, aborted: bool) returns (refusal: Option<Refusal>)
      requires Valid()
      modifies this
      ensures Valid() && State() == Happens(limits, old(State()), Calls(timeoutMs, pollIntervalMs, aborted))
      ensures refusal == Refused(limits, old(activeTransactionWaits), timeoutMs, pollIntervalMs, aborted)
    {
      HappensKeepsCount(limits, State(), Calls(timeoutMs, pollIntervalMs, aborted));
      refusal := Check(timeoutMs, pollIntervalMs, aborted);
      if refusal.Some? {
        calls := calls + [Rejected(refusal.value)];
      } else {
        activeTransactionWaits := activeTransactionWaits + 1;
        calls := calls + [UnderWay];
      }
    }

    /** The checks, in their order. */
    method Check(timeoutMs: int, pollIntervalMs: int, aborted: bool) returns (refusal: Option<Refusal>)
      ensures refusal == Refused(limits, activeTransactionWaits, timeoutMs, pollIntervalMs, aborted)
    {
      if timeoutMs <= 0 { return Some(BadTimeout); }
      if pollIntervalMs <= 0 { return Some(BadPollInterval); }
      if timeoutMs > limits.maxTransactionWaitMs { return Some(TimeoutTooLong); }
      if pollIntervalMs < limits.minTransactionPollIntervalMs { return Some(PollIntervalTooShort); }
      if aborted { return Some(SignalAborted); }
      if activeTransactionWaits >= limits.maxConcurrentTransactionWaits { return Some(TooManyWaits); }
      return None;
    }

    /** The `finally` of `waitForTransaction`. */
    method End(ghost call: nat, ghost result: WaitResult)
      requires Valid() && call < |calls| && calls[call].UnderWay?
      modifies this
      ensures Valid() && State() == Happens(limits, old(State()), Settles(call, result))
    {
      HappensKeepsCount(limits, State(), Settles(call, result));
      activeTransactionWaits := activeTransactionWaits - 1;
      calls := calls[call := Over(result)];
    }

    /** While a call waits, others call and end: callers know no more than that. */
    method Await(ghost call: nat) returns (ghost others: seq<Happening>)
      requires Valid()
      modifies this
      ensures Valid() && State() == AfterAll(limits, old(State()), others) && forall h :: h in others ==> NotOf(call, h)
    {
      others := [];
    }

    /** `waitForTransaction`: a call that is not refused waits as `pollForTransaction`
        does, and whatever others do meanwhile and however it ends, it is over then and
        no longer counted. */
    method WaitForTransaction(w: Wait, aborted: bool)
      returns (refusal: Option<Refusal>, result: WaitResult, now: int, ghost begun: seq<int>, ghost hs: seq<Happening>)
      requires Valid()
      modifies this
      ensures Valid() && State() == AfterAll(limits, old(State()), hs) && hs != []
      ensures hs[0] == Calls(w.timeoutMs, w.pollIntervalMs, aborted)
      ensures refusal == Refused(limits, old(activeTransactionWaits), w.timeoutMs, w.pollIntervalMs, aborted)
      ensures var call := |old(calls)|;
              && call < |calls| && calls[call] == (if refusal.Some? then Rejected(refusal.value) else Over(result))
              && forall k :: 0 < k < |hs| - 1 ==> NotOf(call, hs[k])
      ensures refusal.None? ==>
                History(w, begun) && Concludes(w, w.turns(|begun| - 1), begun[|begun| - 1], result, now)
    {
      hide History, Concludes, Refused, Happens, Counted;
      ghost var call, start := |calls|, State();
      result, now, begun := Unconfirmed, w.start, [];
      ghost var mine := Calls(w.timeoutMs, w.pollIntervalMs, aborted);
      refusal := Begin(w.timeoutMs, w.pollIntervalMs, aborted);
      RunOfOne(limits, start, mine);
      hs := [mine];
      CallBegins(limits, start, mine);
      if refusal.Some? { return; }
      PassedChecks(limits, start.active, w, aborted);
      var others := Await(call);
      OthersKeepWait(limits, Happens(limits, start, mine), others, call);
      RunsJoin(limits, start, hs, others);
      var polls;
      result, now, polls, begun := PollForTransaction(w);
      ghost var waited := State();
      End(call, result);
      RunOfOne(limits, waited, Settles(call, result));
      RunsJoin(limits, start, hs + others, [Settles(call, result)]);
      CallEnds(limits, waited, call, result);
      hs := hs + others + [Settles(call, result)];
    }
  }

  lemma CallBegins(limits: Limits, s: Waits, h: Happening)
    requires h.Calls?
    ensures var refusal := Refused(limits, s.active, h.timeoutMs, h.pollIntervalMs, h.aborted);
            Happens(limits, s, h).calls == s.calls + [if refusal.Some? then Rejected(refusal.value) else UnderWay]
  {
    hide Refused;
  }

  lemma CallEnds(limits: Limits, s: Waits, call: nat, result: WaitResult)
    requires call < |s.calls| && s.calls[call].UnderWay?
    ensures Happens(limits, s, Settles(call, result)).calls == s.calls[call := Over(result)]
  {
  }

  lemma PassedChecks(limits: Limits, active: int, w: Wait, aborted: bool)
    requires Refused(limits, active, w.timeoutMs, w.pollIntervalMs, aborted).None?
    ensures w.Valid()
  {
  }
}
