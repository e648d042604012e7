/** The fixed-window rate limiter of rate-limiter.ts: one window per client, and a
    second one of an hour when an hourly maximum is set. */
module RateLimiter {
  import opened JsText

  datatype Entry = Entry(count: nat, resetTime: int)

  type Limits = map<Text, Entry>

  datatype Window = Minute | Hour

  datatype Refusal = Refusal(limit: nat, current: nat, retryAfter: nat, window: Window)

  const HOUR_MS: int := 3_600_000

  /** Settings that the constructor accepts. */
  datatype Settings = Settings(maxRequests: int, windowMs: int, maxRequestsPerHour: Option<int>) {
    predicate Valid() {
      maxRequests > 0 && windowMs > 0 && (maxRequestsPerHour.Some? ==> maxRequestsPerHour.value > 0)
    }
  }

  // ------------------------------------------------------------- one window

  function EntryOf(limits: Limits, client: Text): Option<Entry> {
    if client in limits then Some(limits[client]) else None
  }

  /** The entry unless its window is over. */
  function LiveAt(e: Option<Entry>, now: int): Option<Entry> {
    if e.Some? && e.value.resetTime > now then e else None
  }

  /** The entry that a request at `now` is counted in, before it is counted. */
  function Current(e: Option<Entry>, now: int, windowMs: int): Entry {
    if LiveAt(e, now).Some? then e.value else Entry(0, now + windowMs)
  }

  function Counted(e: Option<Entry>, now: int, windowMs: int): Option<Entry> {
    var c := Current(e, now, windowMs);
    Some(Entry(c.count + 1, c.resetTime))
  }

  predicate Passes(e: Option<Entry>, now: int, maximum: int, windowMs: int) {
    Current(e, now, windowMs).count + 1 <= maximum
  }

  /** `Math.max(1, Math.ceil(ms / 1000))` */
  function Seconds(ms: int): (s: nat)
    ensures s >= 1 && s * 1000 >= ms
  {
    if ms <= 1000 then 1 else (ms + 999) / 1000
  }

  function Verdict(e: Option<Entry>, now: int, maximum: nat, windowMs: int, window: Window): Option<Refusal> {
    if Passes(e, now, maximum, windowMs) then None
    else
      var c := Current(e, now, windowMs);
      Some(Refusal(maximum, c.count + 1, Seconds(c.resetTime - now), window))
  }

  /** What `cleanup` leaves. */
  function Swept(limits: Limits, now: int): Limits {
    map c | c in limits && limits[c].resetTime > now :: limits[c]
  }

  // ---------------------------------------------------------- the whole state

  datatype State = State(limits: Limits, hourlyLimits: Limits)

  /** A call of `checkLimit`; it reads the clock once for each window. */
  datatype Request = Request(now: int, later: int)

  datatype Op = Check(client: Text, request: Request) | Cleanup(now: int)

  function Checked(cfg: Settings, s: State, client: Text, q: Request): (State, Option<Refusal>)
    requires cfg.Valid()
  {
    var minute := EntryOf(s.limits, client);
    var verdict := Verdict(minute, q.now, cfg.maxRequests, cfg.windowMs, Minute);
    var s1 := s.(limits := s.limits[client := Counted(minute, q.now, cfg.windowMs).value]);
    if verdict.Some? || cfg.maxRequestsPerHour.None? then (s1, verdict)
    else
      var hour := EntryOf(s.hourlyLimits, client);
      (s1.(hourlyLimits := s.hourlyLimits[client := Counted(hour, q.later, HOUR_MS).value]),
       Verdict(hour, q.later, cfg.maxRequestsPerHour.value, HOUR_MS, Hour))
  }

  function Cleaned(s: State, now: int): State {
    State(Swept(s.limits, now), Swept(s.hourlyLimits, now))
  }

  /** What `resetLimit` leaves. */
  function Forgotten(s: State, client: Text): State { State(s.limits - {client}, s.hourlyLimits - {client}) }

  /** The limiter object. Its clock readings are parameters. */
  class Limiter {
    var state: State
    var settings: Settings
    var enabled: bool

    constructor (maxRequests: int, windowMs: int, enabled: bool, maxRequestsPerHour: Option<int>)
      requires Settings(maxRequests, windowMs, maxRequestsPerHour).Valid()
      ensures state == State(map[], map[]) && this.enabled == enabled
      ensures settings == Settings(maxRequests, windowMs, maxRequestsPerHour)
    {
      state := State(map[], map[]);
      settings := Settings(maxRequests, windowMs, maxRequestsPerHour);
      this.enabled := enabled;
    }

    method ConsumeWindow(limits: Limits, clientId: Text, maximum: nat, windowMs: int, window: Window, now: int)
      returns (after: Limits, refusal: Option<Refusal>)
      ensures after == limits[clientId := Counted(EntryOf(limits, clientId), now, windowMs).value]
      ensures refusal == Verdict(EntryOf(limits, clientId), now, maximum, windowMs, window)
    {
      after := limits;
      if clientId !in after || after[clientId].resetTime <= now {
        after := after[clientId := Entry(0, now + windowMs)];
      }
      var entry := after[clientId];
      entry := entry.(count := entry.count + 1);
      after := after[clientId := entry];
      if entry.count <= maximum { return after, None; }
      return after, Some(Refusal(maximum, entry.count, Seconds(entry.resetTime - now), window));
    }

    method CheckLimit(clientId: Text, q: Request) returns (refusal: Option<Refusal>)
      requires settings.Valid()
      modifies this`state
      ensures !enabled ==> refusal == None && state == old(state)
      ensures enabled ==> (state, refusal) == Checked(settings, old(state), clientId, q)
    {
      if !enabled { return None; }
      var limits;
      limits, refusal :=
        ConsumeWindow(state.limits, clientId, settings.maxRequests, settings.windowMs, Minute, q.now);
      state := state.(limits := limits);
      if refusal.Some? { return; }
      if settings.maxRequestsPerHour.Some? {
        limits, refusal := ConsumeWindow(
          state.hourlyLimits, clientId, settings.maxRequestsPerHour.value, HOUR_MS, Hour, q.later);
        state := state.(hourlyLimits := limits);
      }
    }

    method Sweep(limits: Limits, now: int) returns (after: Limits)
      ensures after == Swept(limits, now)
    {
      after := limits;
      var left := limits.Keys;
      while left != {}
        invariant left <= limits.Keys
        invariant forall c :: c in after <==> c in limits && (c in left || limits[c].resetTime > now)
        invariant forall c :: c in after ==> after[c] == limits[c]
        decreases left
      {
        var clientId :| clientId in left;
        if limits[clientId].resetTime <= now {
          after := after - {clientId};
        }
        left := left - {clientId};
      }
    }

    method Cleanup(now: int)
      modifies this`state
      ensures state == Cleaned(old(state), now)
    {
      var limits := Sweep(state.limits, now);
      var hourlyLimits := Sweep(state.hourlyLimits, now);
      state := State(limits, hourlyLimits);
    }

    method ResetLimit(clientId: Text)
      modifies this`state
      ensures state == Forgotten(old(state), clientId)
    {
      state := State(state.limits - {clientId}, state.hourlyLimits - {clientId});
    }
  }

  // -------------------------------------------------------------------- runs

  /** The clock never goes back over a run, from `t` on. */
  predicate Clocked(ops: seq<Op>, t: int) {
    ops == [] ||
    match ops[0]
    case Check(_, q) => t <= q.now <= q.later && Clocked(ops[1..], q.later)
    case Cleanup(now) => t <= now && Clocked(ops[1..], now)
  }

  /** What `checkLimit` answered to the calls of one client, in order. */
  function Answers(cfg: Settings, s: State, ops: seq<Op>, client: Text): (r: seq<Option<Refusal>>)
    requires cfg.Valid()
    ensures |r| == |RequestsOf(ops, client)|
    decreases |ops|
  {
    if ops == [] then []
    else
      match ops[0]
      case Check(c, q) =>
        var (s1, refusal) := Checked(cfg, s, c, q);
        var rest := Answers(cfg, s1, ops[1..], client);
        if c == client then [refusal] + rest else rest
      case Cleanup(now) => Answers(cfg, Cleaned(s, now), ops[1..], client)
  }

  function RequestsOf(ops: seq<Op>, client: Text): seq<Request> {
    if ops == [] then []
    else if ops[0].Check? && ops[0].client == client then [ops[0].request] + RequestsOf(ops[1..], client)
    else RequestsOf(ops[1..], client)
  }

  /** A limiter for one client, with neither maps nor cleanup. */
  function Solo(cfg: Settings, minute: Option<Entry>, hour: Option<Entry>, qs: seq<Request>)
    : (r: seq<Option<Refusal>>)
    requires cfg.Valid()
    ensures |r| == |qs|
    decreases |qs|
  {
    if qs == [] then []
    else
      var q := qs[0];
      var verdict := Verdict(minute, q.now, cfg.maxRequests, cfg.windowMs, Minute);
      var minute1 := Counted(minute, q.now, cfg.windowMs);
      if verdict.Some? || cfg.maxRequestsPerHour.None? then [verdict] + Solo(cfg, minute1, hour, qs[1..])
      else
        [Verdict(hour, q.later, cfg.maxRequestsPerHour.value, HOUR_MS, Hour)]
        + Solo(cfg, minute1, Counted(hour, q.later, HOUR_MS), qs[1..])
  }

  /** The two entries count the same for every request from `t` on. */
  predicate Same(e: Option<Entry>, f: Option<Entry>, t: int) { LiveAt(e, t) == LiveAt(f, t) }

  lemma SameLater(e: Option<Entry>, f: Option<Entry>, t: int, now: int)
    requires Same(e, f, t) && t <= now
    ensures Same(e, f, now)
    ensures forall w :: Current(e, now, w) == Current(f, now, w)
  {
  }

  lemma SweptSame(limits: Limits, client: Text, f: Option<Entry>, t: int, now: int)
    requires Same(EntryOf(limits, client), f, t) && t <= now
    ensures Same(EntryOf(Swept(limits, now), client), f, now)
  {
  }

  lemma CheckSame(cfg: Settings, s: State, c: Text, q: Request, client: Text, t: int,
                  minute: Option<Entry>, hour: Option<Entry>)
    requires cfg.Valid() && t <= q.now <= q.later
    requires Same(EntryOf(s.limits, client), minute, t) && Same(EntryOf(s.hourlyLimits, client), hour, t)
    ensures c != client ==>
              var s1 := Checked(cfg, s, c, q).0;
              && Same(EntryOf(s1.limits, client), minute, q.later)
              && Same(EntryOf(s1.hourlyLimits, client), hour, q.later)
    ensures c == client ==>
              var (s1, refusal) := Checked(cfg, s, c, q);
              var verdict := Verdict(minute, q.now, cfg.maxRequests, cfg.windowMs, Minute);
              && Same(EntryOf(s1.limits, client), Counted(minute, q.now, cfg.windowMs), q.later)
              && if verdict.Some? || cfg.maxRequestsPerHour.None? then
                   refusal == verdict && Same(EntryOf(s1.hourlyLimits, client), hour, q.later)
                 else
                   && refusal == Verdict(hour, q.later, cfg.maxRequestsPerHour.value, HOUR_MS, Hour)
                   && Same(EntryOf(s1.hourlyLimits, client), Counted(hour, q.later, HOUR_MS), q.later)
  {
    SameLater(EntryOf(s.limits, client), minute, t, q.now);
    SameLater(EntryOf(s.limits, client), minute, t, q.later);
    SameLater(EntryOf(s.hourlyLimits, client), hour, t, q.later);
  }

  /** Each client is limited as if it had a limiter of its own that never cleans up. */
  lemma {:induction false} EachClientAlone(cfg: Settings, s: State, ops: seq<Op>, client: Text, t: int,
                                           minute: Option<Entry>, hour: Option<Entry>)
    requires cfg.Valid() && Clocked(ops, t)
    requires Same(EntryOf(s.limits, client), minute, t) && Same(EntryOf(s.hourlyLimits, client), hour, t)
    ensures Answers(cfg, s, ops, client) == Solo(cfg, minute, hour, RequestsOf(ops, client))
    decreases |ops|, 1
  {
    if ops == [] {
    } else {
      match ops[0]
      case Cleanup(now) =>
        SweptSame(s.limits, client, minute, t, now);
        SweptSame(s.hourlyLimits, client, hour, t, now);
        EachClientAlone(cfg, Cleaned(s, now), ops[1..], client, now, minute, hour);
      case Check(c, q) =>
        CheckSame(cfg, s, c, q, client, t, minute, hour);
        var s1 := Checked(cfg, s, c, q).0;
        if c != client {
          EachClientAlone(cfg, s1, ops[1..], client, q.later, minute, hour);
        } else {
          ClientStep(cfg, s, ops, client, t, minute, hour);
        }
    }
  }

  lemma {:induction false} ClientStep(cfg: Settings, s: State, ops: seq<Op>, client: Text, t: int,
                                      minute: Option<Entry>, hour: Option<Entry>)
    requires cfg.Valid() && Clocked(ops, t) && ops != [] && ops[0].Check? && ops[0].client == client
    requires Same(EntryOf(s.limits, client), minute, t) && Same(EntryOf(s.hourlyLimits, client), hour, t)
    ensures Answers(cfg, s, ops, client) == Solo(cfg, minute, hour, RequestsOf(ops, client))
    decreases |ops|, 0
  {
    var q := ops[0].request;
    var (s1, refusal) := Checked(cfg, s, client, q);
    CheckSame(cfg, s, client, q, client, t, minute, hour);
    var verdict := Verdict(minute, q.now, cfg.maxRequests, cfg.windowMs, Minute);
    var minute1 := Counted(minute, q.now, cfg.windowMs);
    var hour1 := if verdict.Some? || cfg.maxRequestsPerHour.None? then hour else Counted(hour, q.later, HOUR_MS);
    EachClientAlone(cfg, s1, ops[1..], client, q.later, minute1, hour1);
    assert RequestsOf(ops, client)[1..] == RequestsOf(ops[1..], client);
    hide Checked, Verdict, Counted, RequestsOf;
  }

  /** Neither cleanup, wherever it runs, nor other clients change an answer. */
  lemma OnlyOwnRequestsMatter(cfg: Settings, s: State, ops: seq<Op>, others: seq<Op>, client: Text, t: int)
    requires cfg.Valid() && Clocked(ops, t) && Clocked(others, t)
    requires RequestsOf(ops, client) == RequestsOf(others, client)
    ensures Answers(cfg, s, ops, client) == Answers(cfg, s, others, client)
  {
    EachClientAlone(cfg, s, ops, client, t, EntryOf(s.limits, client), EntryOf(s.hourlyLimits, client));
    EachClientAlone(cfg, s, others, client, t, EntryOf(s.limits, client), EntryOf(s.hourlyLimits, client));
  }

  /** A client that is reset is answered from then on as one never seen before, and
      every other client as if nothing had happened. */
  lemma ResetStartsAfresh(cfg: Settings, s: State, ops: seq<Op>, client: Text, other: Text, t: int)
    requires cfg.Valid() && Clocked(ops, t) && other != client
    ensures Answers(cfg, Forgotten(s, client), ops, client) == Solo(cfg, None, None, RequestsOf(ops, client))
    ensures Answers(cfg, Forgotten(s, client), ops, other) == Answers(cfg, s, ops, other)
  {
    var minute, hour := EntryOf(s.limits, other), EntryOf(s.hourlyLimits, other);
    EachClientAlone(cfg, Forgotten(s, client), ops, client, t, None, None);
    EachClientAlone(cfg, Forgotten(s, client), ops, other, t, minute, hour);
    EachClientAlone(cfg, s, ops, other, t, minute, hour);
  }

  // -------------------------------------------------- bounds for one window

  predicate Ascending(ts: seq<int>, t: int) {
    ts == [] || (t <= ts[0] && Ascending(ts[1..], ts[0]))
  }

  /** How many of the requests at times `ts` pass, of those in `[a, b)`. */
  function Passed(e: Option<Entry>, ts: seq<int>, maximum: int, windowMs: int, a: int, b: int): nat
    decreases |ts|
  {
    if ts == [] then 0
    else
      (if Passes(e, ts[0], maximum, windowMs) && a <= ts[0] < b then 1 else 0)
      + Passed(Counted(e, ts[0], windowMs), ts[1..], maximum, windowMs, a, b)
  }

  function Before(ts: seq<int>, b: int): nat {
    if ts == [] then 0 else (if ts[0] < b then 1 else 0) + Before(ts[1..], b)
  }

  function Remaining(e: Entry, maximum: int): nat { if e.count >= maximum then 0 else maximum - e.count }

  lemma {:induction false} PassedLate(e: Option<Entry>, ts: seq<int>, maximum: int, windowMs: int, a: int, b: int,
                                        t: int)
    requires Ascending(ts, t) && t >= b
    ensures Passed(e, ts, maximum, windowMs, a, b) == 0 && Before(ts, b) == 0
    decreases |ts|
  {
    if ts != [] {
      PassedLate(Counted(e, ts[0], windowMs), ts[1..], maximum, windowMs, a, b, ts[0]);
    }
  }

  /** In an open window exactly the remaining requests pass, and all come first. */
  lemma {:induction false} PassedInWindow(e: Entry, ts: seq<int>, maximum: int, windowMs: int, a: int, b: int, t: int)
    requires Ascending(ts, t) && b <= e.resetTime && a <= t
    ensures Passed(Some(e), ts, maximum, windowMs, a, b) == Min(Remaining(e, maximum), Before(ts, b))
    decreases |ts|
  {
    if ts != [] {
      if ts[0] < b {
        PassedInWindow(Entry(e.count + 1, e.resetTime), ts[1..], maximum, windowMs, a, b, ts[0]);
      } else {
        PassedLate(Some(e), ts, maximum, windowMs, a, b, ts[0]);
      }
    }
  }

  /** A request that opens a window: of the requests in that window exactly the
      first `maximum` pass. */
  lemma PassedFromOpening(e: Option<Entry>, ts: seq<int>, maximum: int, windowMs: int)
    requires ts != [] && Ascending(ts, ts[0]) && LiveAt(e, ts[0]).None? && maximum > 0 && windowMs > 0
    ensures Passed(e, ts, maximum, windowMs, ts[0], ts[0] + windowMs)
            == Min(maximum, Before(ts, ts[0] + windowMs))
  {
    var b := ts[0] + windowMs;
    PassedInWindow(Entry(1, b), ts[1..], maximum, windowMs, ts[0], b, ts[0]);
  }

  /** From any state of the window, an interval as long as the window sees at most
      what remains of it and one more window. */
  lemma {:induction false} PassedFrom(e: Option<Entry>, ts: seq<int>, maximum: int, windowMs: int, a: int, t: int)
    requires maximum > 0 && windowMs > 0 && Ascending(ts, t) && a <= t
    ensures Passed(e, ts, maximum, windowMs, a, a + windowMs)
            <= (if e.Some? then Remaining(e.value, maximum) else 0) + maximum
    decreases |ts|
  {
    if ts != [] {
      if LiveAt(e, ts[0]).Some? {
        PassedFrom(Counted(e, ts[0], windowMs), ts[1..], maximum, windowMs, a, ts[0]);
      } else {
        PassedInWindow(Entry(1, ts[0] + windowMs), ts[1..], maximum, windowMs, a, a + windowMs, ts[0]);
      }
    }
  }

  lemma {:induction false} PassedSliding(e: Option<Entry>, ts: seq<int>, maximum: int, windowMs: int, a: int, t: int)
    requires maximum > 0 && windowMs > 0 && Ascending(ts, t)
    ensures Passed(e, ts, maximum, windowMs, a, a + windowMs) <= 2 * maximum
    decreases |ts|
  {
    if ts != [] {
      if ts[0] < a {
        PassedSliding(Counted(e, ts[0], windowMs), ts[1..], maximum, windowMs, a, ts[0]);
      } else {
        PassedFrom(e, ts, maximum, windowMs, a, ts[0]);
      }
    }
  }

  // -------------------------------------------- bounds for the two windows

  predicate InOrder(qs: seq<Request>, t: int) {
    qs == [] || (t <= qs[0].now <= qs[0].later && InOrder(qs[1..], qs[0].later))
  }

  lemma {:induction false} OwnRequestsInOrder(ops: seq<Op>, client: Text, t: int, u: int)
    requires Clocked(ops, t) && u <= t
    ensures InOrder(RequestsOf(ops, client), u)
    decreases |ops|
  {
    if ops != [] {
      match ops[0]
      case Cleanup(now) => OwnRequestsInOrder(ops[1..], client, now, u);
      case Check(c, q) =>
        if c == client {
          OwnRequestsInOrder(ops[1..], client, q.later, q.later);
          assert RequestsOf(ops, client)[1..] == RequestsOf(ops[1..], client);
        } else {
          OwnRequestsInOrder(ops[1..], client, q.later, u);
        }
    }
  }

  /** How many requests were admitted, of those whose first clock reading is in `[a, b)`. */
  function AdmittedNow(qs: seq<Request>, answers: seq<Option<Refusal>>, a: int, b: int): nat
    requires |qs| == |answers|
  {
    if qs == [] then 0
    else (if answers[0].None? && a <= qs[0].now < b then 1 else 0) + AdmittedNow(qs[1..], answers[1..], a, b)
  }

  /** The same by the second clock reading, which the hourly window uses. */
  function AdmittedLater(qs: seq<Request>, answers: seq<Option<Refusal>>, a: int, b: int): nat
    requires |qs| == |answers|
  {
    if qs == [] then 0
    else (if answers[0].None? && a <= qs[0].later < b then 1 else 0) + AdmittedLater(qs[1..], answers[1..], a, b)
  }

  function Nows(qs: seq<Request>): seq<int> {
    if qs == [] then [] else [qs[0].now] + Nows(qs[1..])
  }

  /** The times at which the hourly window is asked. */
  function HourTimes(cfg: Settings, minute: Option<Entry>, qs: seq<Request>): seq<int>
    decreases |qs|
  {
    if qs == [] then []
    else
      var rest := HourTimes(cfg, Counted(minute, qs[0].now, cfg.windowMs), qs[1..]);
      if Passes(minute, qs[0].now, cfg.maxRequests, cfg.windowMs) then [qs[0].later] + rest else rest
  }

  lemma {:induction false} NowsAscend(qs: seq<Request>, t: int, u: int)
    requires InOrder(qs, t) && u <= t
    ensures Ascending(Nows(qs), u)
    decreases |qs|
  {
    if qs != [] {
      NowsAscend(qs[1..], qs[0].later, qs[0].now);
    }
  }

  lemma {:induction false} HourTimesAscend(cfg: Settings, minute: Option<Entry>, qs: seq<Request>, t: int, u: int)
    requires InOrder(qs, t) && u <= t
    ensures Ascending(HourTimes(cfg, minute, qs), u)
    decreases |qs|
  {
    if qs != [] {
      var q := qs[0];
      var minute1 := Counted(minute, q.now, cfg.windowMs);
      var rest := HourTimes(cfg, minute1, qs[1..]);
      if Passes(minute, q.now, cfg.maxRequests, cfg.windowMs) {
        HourTimesAscend(cfg, minute1, qs[1..], q.later, q.later);
        assert ([q.later] + rest)[1..] == rest;
      } else {
        HourTimesAscend(cfg, minute1, qs[1..], q.later, u);
      }
    }
  }

  /** What is admitted passed the first window; with no hourly maximum, exactly that. */
  lemma {:induction false} AdmittedPassed(cfg: Settings, minute: Option<Entry>, hour: Option<Entry>,
                                          qs: seq<Request>, a: int, b: int)
    requires cfg.Valid()
    ensures var admitted := AdmittedNow(qs, Solo(cfg, minute, hour, qs), a, b);
            var passed := Passed(minute, Nows(qs), cfg.maxRequests, cfg.windowMs, a, b);
            admitted <= passed && (cfg.maxRequestsPerHour.None? ==> admitted == passed)
    decreases |qs|
  {
    if qs != [] {
      var q := qs[0];
      var verdict := Verdict(minute, q.now, cfg.maxRequests, cfg.windowMs, Minute);
      var minute1 := Counted(minute, q.now, cfg.windowMs);
      var hour1 := if verdict.Some? || cfg.maxRequestsPerHour.None? then hour else Counted(hour, q.later, HOUR_MS);
      AdmittedPassed(cfg, minute1, hour1, qs[1..], a, b);
      SoloTail(cfg, minute, hour, qs);
      assert Nows(qs)[1..] == Nows(qs[1..]);
    }
  }

  lemma SoloTail(cfg: Settings, minute: Option<Entry>, hour: Option<Entry>, qs: seq<Request>)
    requires cfg.Valid() && qs != []
    ensures var verdict := Verdict(minute, qs[0].now, cfg.maxRequests, cfg.windowMs, Minute);
            var alone := verdict.Some? || cfg.maxRequestsPerHour.None?;
            && Solo(cfg, minute, hour, qs)[1..] ==
               Solo(cfg, Counted(minute, qs[0].now, cfg.windowMs),
                    if alone then hour else Counted(hour, qs[0].later, HOUR_MS), qs[1..])
            && Solo(cfg, minute, hour, qs)[0] ==
               if alone then verdict
               else Verdict(hour, qs[0].later, cfg.maxRequestsPerHour.value, HOUR_MS, Hour)
  {
  }

  /** With an hourly maximum, what is admitted is what passed the hourly window. */
  lemma {:induction false} AdmittedHourly(cfg: Settings, minute: Option<Entry>, hour: Option<Entry>,
                                          qs: seq<Request>, a: int, b: int)
    requires cfg.Valid() && cfg.maxRequestsPerHour.Some?
    ensures AdmittedLater(qs, Solo(cfg, minute, hour, qs), a, b)
            == Passed(hour, HourTimes(cfg, minute, qs), cfg.maxRequestsPerHour.value, HOUR_MS, a, b)
    decreases |qs|
  {
    if qs != [] {
      var q := qs[0];
      var minute1 := Counted(minute, q.now, cfg.windowMs);
      var rest := HourTimes(cfg, minute1, qs[1..]);
      SoloTail(cfg, minute, hour, qs);
      if Passes(minute, q.now, cfg.maxRequests, cfg.windowMs) {
        AdmittedHourly(cfg, minute1, Counted(hour, q.later, HOUR_MS), qs[1..], a, b);
        assert ([q.later] + rest)[1..] == rest;
      } else {
        AdmittedHourly(cfg, minute1, hour, qs[1..], a, b);
      }
    }
  }

  // ------------------------------------------------------------- main results

  /** Admissions of a client in a run, by the first and by the second clock reading. */
  function AdmittedIn(cfg: Settings, s: State, ops: seq<Op>, client: Text, a: int, b: int): nat
    requires cfg.Valid()
  {
    AdmittedNow(RequestsOf(ops, client), Answers(cfg, s, ops, client), a, b)
  }

  function AdmittedInByHour(cfg: Settings, s: State, ops: seq<Op>, client: Text, a: int, b: int): nat
    requires cfg.Valid()
  {
    AdmittedLater(RequestsOf(ops, client), Answers(cfg, s, ops, client), a, b)
  }

  /** Over any run, in any interval as long as the window, a client is admitted at
      most twice the maximum. */
  lemma SlidingBound(cfg: Settings, s: State, ops: seq<Op>, client: Text, t: int, a: int)
    requires cfg.Valid() && Clocked(ops, t)
    ensures AdmittedIn(cfg, s, ops, client, a, a + cfg.windowMs) <= 2 * cfg.maxRequests
  {
    var minute, hour := EntryOf(s.limits, client), EntryOf(s.hourlyLimits, client);
    var qs := RequestsOf(ops, client);
    EachClientAlone(cfg, s, ops, client, t, minute, hour);
    OwnRequestsInOrder(ops, client, t, t);
    NowsAscend(qs, t, t);
    AdmittedPassed(cfg, minute, hour, qs, a, a + cfg.windowMs);
    PassedSliding(minute, Nows(qs), cfg.maxRequests, cfg.windowMs, a, t);
  }

  /** Likewise for any hour, when there is an hourly maximum. */
  lemma HourlySlidingBound(cfg: Settings, s: State, ops: seq<Op>, client: Text, t: int, a: int)
    requires cfg.Valid() && Clocked(ops, t) && cfg.maxRequestsPerHour.Some?
    ensures AdmittedInByHour(cfg, s, ops, client, a, a + HOUR_MS) <= 2 * cfg.maxRequestsPerHour.value
  {
    var minute, hour := EntryOf(s.limits, client), EntryOf(s.hourlyLimits, client);
    var qs := RequestsOf(ops, client);
    EachClientAlone(cfg, s, ops, client, t, minute, hour);
    OwnRequestsInOrder(ops, client, t, t);
    HourTimesAscend(cfg, minute, qs, t, t);
    AdmittedHourly(cfg, minute, hour, qs, a, a + HOUR_MS);
    PassedSliding(hour, HourTimes(cfg, minute, qs), cfg.maxRequestsPerHour.value, HOUR_MS, a, t);
  }

  /** A request that finds no open window opens one, and in that window the client
      is admitted at most the maximum; with no hourly maximum, exactly its first
      `maxRequests` requests are. */
  lemma FixedWindow(cfg: Settings, s: State, ops: seq<Op>, client: Text, t: int)
    requires cfg.Valid() && Clocked(ops, t)
    requires ops != [] && ops[0].Check? && ops[0].client == client
    requires LiveAt(EntryOf(s.limits, client), ops[0].request.now).None?
    ensures var start := ops[0].request.now;
            var admitted := AdmittedIn(cfg, s, ops, client, start, start + cfg.windowMs);
            var asked := Before(Nows(RequestsOf(ops, client)), start + cfg.windowMs);
            && admitted <= cfg.maxRequests
            && (cfg.maxRequestsPerHour.None? ==>
                  && admitted == Min(cfg.maxRequests, asked)
                  && asked <= |Answers(cfg, s, ops, client)|
                  && forall k :: 0 <= k < asked ==> (Answers(cfg, s, ops, client)[k].None? <==> k < cfg.maxRequests))
  {
    var minute, hour := EntryOf(s.limits, client), EntryOf(s.hourlyLimits, client);
    var qs := RequestsOf(ops, client);
    var start := ops[0].request.now;
    EachClientAlone(cfg, s, ops, client, t, minute, hour);
    OwnRequestsInOrder(ops, client, t, t);
    assert qs[0] == ops[0].request;
    assert InOrder(qs, start);
    NowsAscend(qs, start, start);
    AdmittedPassed(cfg, minute, hour, qs, start, start + cfg.windowMs);
    PassedFromOpening(minute, Nows(qs), cfg.maxRequests, cfg.windowMs);
    if cfg.maxRequestsPerHour.None? {
      var asked := Before(Nows(qs), start + cfg.windowMs);
      BeforeFits(qs, start + cfg.windowMs);
      forall k | 0 <= k < asked
        ensures Solo(cfg, minute, hour, qs)[k].None? <==> k < cfg.maxRequests
      {
        FirstInWindow(cfg, minute, hour, qs, k);
      }
    }
  }

  lemma {:induction false} BeforeFits(qs: seq<Request>, b: int)
    ensures Before(Nows(qs), b) <= |qs|
  {
    if qs != [] {
      BeforeFits(qs[1..], b);
      assert Nows(qs)[1..] == Nows(qs[1..]);
    }
  }

  /** The k-th request of the window that the first one opens. */
  lemma FirstInWindow(cfg: Settings, minute: Option<Entry>, hour: Option<Entry>, qs: seq<Request>, k: nat)
    requires cfg.Valid() && cfg.maxRequestsPerHour.None? && qs != [] && InOrder(qs, qs[0].now)
    requires LiveAt(minute, qs[0].now).None? && k < Before(Nows(qs), qs[0].now + cfg.windowMs) <= |qs|
    ensures Solo(cfg, minute, hour, qs)[k].None? <==> k < cfg.maxRequests
  {
    var b := qs[0].now + cfg.windowMs;
    SoloTail(cfg, minute, hour, qs);
    assert Nows(qs)[1..] == Nows(qs[1..]);
    if k > 0 {
      BeforeFits(qs[1..], b);
      LaterInWindow(cfg, Entry(1, b), hour, qs[1..], k - 1, qs[0].later);
      assert Solo(cfg, minute, hour, qs)[k] == Solo(cfg, minute, hour, qs)[1..][k - 1];
    }
  }

  lemma {:induction false} LaterInWindow(cfg: Settings, e: Entry, hour: Option<Entry>, qs: seq<Request>, k: nat, t: int)
    requires cfg.Valid() && cfg.maxRequestsPerHour.None? && InOrder(qs, t)
    requires k < Before(Nows(qs), e.resetTime) <= |qs|
    ensures Solo(cfg, Some(e), hour, qs)[k].None? <==> e.count + k + 1 <= cfg.maxRequests
    decreases |qs|
  {
    SoloTail(cfg, Some(e), hour, qs);
    assert Nows(qs)[1..] == Nows(qs[1..]);
    NowsAscend(qs, t, t);
    if qs[0].now >= e.resetTime {
      PassedLate(Some(e), Nows(qs)[1..], 0, cfg.windowMs, 0, e.resetTime, qs[0].now);
      assert false;
    }
    if k > 0 {
      BeforeFits(qs[1..], e.resetTime);
      LaterInWindow(cfg, Entry(e.count + 1, e.resetTime), hour, qs[1..], k - 1, qs[0].later);
      assert Solo(cfg, Some(e), hour, qs)[k] == Solo(cfg, Some(e), hour, qs)[1..][k - 1];
    }
  }

  /** In an hourly window a client is admitted at most the hourly maximum. */
  lemma FixedHour(cfg: Settings, s: State, ops: seq<Op>, client: Text, t: int)
    requires cfg.Valid() && Clocked(ops, t) && cfg.maxRequestsPerHour.Some?
    requires ops != [] && ops[0].Check? && ops[0].client == client
    requires Passes(EntryOf(s.limits, client), ops[0].request.now, cfg.maxRequests, cfg.windowMs)
    requires LiveAt(EntryOf(s.hourlyLimits, client), ops[0].request.later).None?
    ensures var start := ops[0].request.later;
            AdmittedInByHour(cfg, s, ops, client, start, start + HOUR_MS) <= cfg.maxRequestsPerHour.value
  {
    var minute, hour := EntryOf(s.limits, client), EntryOf(s.hourlyLimits, client);
    var qs := RequestsOf(ops, client);
    var start := ops[0].request.later;
    EachClientAlone(cfg, s, ops, client, t, minute, hour);
    OwnRequestsInOrder(ops, client, t, t);
    HourTimesAscend(cfg, minute, qs, t, t);
    AdmittedHourly(cfg, minute, hour, qs, start, start + HOUR_MS);
    var ts := HourTimes(cfg, minute, qs);
    assert qs[0] == ops[0].request;
    assert ts[0] == start;
    PassedFromOpening(hour, ts, cfg.maxRequestsPerHour.value, HOUR_MS);
  }

  /** The least positive number of seconds that are no less than these milliseconds. */
  predicate IsLeastSeconds(s: nat, ms: int) {
    1 <= s && 1000 * s >= ms && (s > 1 ==> 1000 * (s - 1) < ms)
  }

  lemma SecondsAreLeast(ms: int)
    ensures IsLeastSeconds(Seconds(ms), ms)
  {
  }

  /** A refusal says which window is full, its maximum, how many requests it has counted
      with this one, and the least positive number of seconds after which it is over. */
  lemma RefusalTells(cfg: Settings, s: State, client: Text, q: Request)
    requires cfg.Valid() && Checked(cfg, s, client, q).1.Some?
    ensures var refusal := Checked(cfg, s, client, q).1.value;
            match refusal.window
            case Minute =>
              && client in s.limits && s.limits[client].resetTime > q.now
              && refusal.limit == cfg.maxRequests && refusal.current == s.limits[client].count + 1 > cfg.maxRequests
              && IsLeastSeconds(refusal.retryAfter, s.limits[client].resetTime - q.now)
            case Hour =>
              && client in s.hourlyLimits && s.hourlyLimits[client].resetTime > q.later
              && cfg.maxRequestsPerHour == Some(refusal.limit)
              && refusal.current == s.hourlyLimits[client].count + 1 > refusal.limit
              && IsLeastSeconds(refusal.retryAfter, s.hourlyLimits[client].resetTime - q.later)
  {
    hide Seconds;
    if client in s.limits { SecondsAreLeast(s.limits[client].resetTime - q.now); }
    if client in s.hourlyLimits { SecondsAreLeast(s.hourlyLimits[client].resetTime - q.later); }
  }

  /** The refusal's `retryAfter` is enough: a client that waits that many seconds
      before its next request is not refused by the same window. */
  lemma RetryAfterSuffices(cfg: Settings, s: State, client: Text, q: Request, q': Request)
    requires cfg.Valid() && q.now <= q.later <= q'.now <= q'.later
    requires Checked(cfg, s, client, q).1.Some?
    ensures var (s1, refusal) := Checked(cfg, s, client, q);
            var next := Checked(cfg, s1, client, q').1;
            var asked := if refusal.value.window == Minute then q.now else q.later;
            q'.now >= asked + 1000 * refusal.value.retryAfter ==>
              next == None || next.value.window != refusal.value.window
  {
  }
}
