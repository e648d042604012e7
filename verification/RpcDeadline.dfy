/** The race in rpc-deadline.ts between an operation, its timer and an abort signal. */
module RpcDeadline {
  import opened JsText

  /** How the promise settles. */
  datatype Settlement = Resolved(value: Text) | Rejected(error: Text) | TimedOut(ms: int) | Aborted

  /** The optional abort signal as the call finds it. */
  datatype Signal = NoSignal | Live | AlreadyAborted

  /** What may happen after the start, in any order. `Throws` and `Returns` are the two
      ways in which calling the operation itself ends. */
  datatype Event = Throws(error: Text) | Returns | Yields(value: Text) | Fails(error: Text) | TimerFires | SignalAborts

  /** What others see: the operation is called, the promise settles. */
  datatype Happening = Called | Settled(s: Settlement)

  /** The flag, the timer and the listener, what the promise settled with, and what
      others saw. `calling` says that the operation has been called and has not come
      back, `waiting` that it has returned a promise that is not yet settled. */
  datatype Call = Call(timeoutMs: int, settled: bool, armed: bool, listening: bool,
                       calling: bool, waiting: bool, promise: Option<Settlement>, trace: seq<Happening>)
  {
    /** A promise keeps the first settlement it is given. */
    function Settle(s: Settlement): Call {
      if promise.None? then this.(promise := Some(s), trace := trace + [Settled(s)]) else this
    }
  }

  /** An event that can still reach the call. */
  predicate Enabled(c: Call, e: Event) {
    match e
    case Throws(_) => c.calling
    case Returns => c.calling
    case Yields(_) => c.waiting
    case Fails(_) => c.waiting
    case TimerFires => c.armed && !c.calling
    case SignalAborts => c.listening
  }

  /** `withRpcDeadline` up to the end of its own statements, but for the outcome of
      `operation()`. */
  function Begin(timeoutMs: int, signal: Signal): Call {
    var idle := Call(timeoutMs, false, false, false, false, false, None, []);
    if timeoutMs <= 0 then idle.(settled := true).Settle(TimedOut(0))
    else if signal.AlreadyAborted? then idle.(settled := true).Settle(Aborted)
    else idle.(armed := true, listening := signal.Live?, calling := true, trace := [Called])
  }

  /** The object behind the promise. */
  class DeadlineCall {
    var call: Call

    constructor (timeoutMs: int, signal: Signal)
      ensures call == Begin(timeoutMs, signal)
    {
      var c := Call(timeoutMs, false, false, false, false, false, None, []);
      if timeoutMs <= 0 {
        c := c.(settled := true).Settle(TimedOut(0));
      } else if signal.AlreadyAborted? {
        c := c.(settled := true).Settle(Aborted);
      } else {
        c := c.(armed := true);
        if signal.Live? { c := c.(listening := true); }
        c := c.(calling := true, trace := c.trace + [Called]);
      }
      call := c;
    }

    method Cleanup()
      modifies this
      ensures call == old(call).(armed := false, listening := false)
    {
      call := call.(armed := false, listening := false);
    }

    /** The abort listener, which is removed as it runs. */
    method OnAbort()
      requires Enabled(call, SignalAborts)
      modifies this
      ensures call == Stepped(old(call), SignalAborts)
    {
      call := call.(listening := false);
      if call.settled { return; }
      call := call.(settled := true);
      Cleanup();
      call := call.Settle(Aborted);
    }

    /** The timer's function; a timer that has fired is no longer armed. */
    method OnTimer()
      requires Enabled(call, TimerFires)
      modifies this
      ensures call == Stepped(old(call), TimerFires)
    {
      call := call.(armed := false);
      if call.settled { return; }
      call := call.(settled := true);
      call := call.(listening := false);
      call := call.Settle(TimedOut(call.timeoutMs));
    }

    /** The operation threw instead of returning a promise. */
    method OnThrow(error: Text)
      requires Enabled(call, Throws(error))
      modifies this
      ensures call == Stepped(old(call), Throws(error))
    {
      call := call.(calling := false, settled := true);
      Cleanup();
      call := call.Settle(Rejected(error));
    }

    method OnReturn()
      requires Enabled(call, Returns)
      modifies this
      ensures call == Stepped(old(call), Returns)
    {
      call := call.(calling := false, waiting := true);
    }

    method OnSettled(result: Result<Text, Text>)
      requires call.waiting
      modifies this
      ensures call == Stepped(old(call), if result.Ok? then Yields(result.value) else Fails(result.error))
    {
      call := call.(waiting := false);
      if call.settled { return; }
      call := call.(settled := true);
      Cleanup();
      call := call.Settle(if result.Ok? then Resolved(result.value) else Rejected(result.error));
    }
  }

  function Stepped(c: Call, e: Event): Call {
    match e
    case Returns => c.(calling := false, waiting := true)
    case Throws(error) =>
      c.(calling := false, settled := true, armed := false, listening := false).Settle(Rejected(error))
    case TimerFires =>
      if c.settled then c.(armed := false)
      else c.(armed := false, listening := false, settled := true).Settle(TimedOut(c.timeoutMs))
    case SignalAborts =>
      if c.settled then c.(listening := false)
      else c.(armed := false, listening := false, settled := true).Settle(Aborted)
    case Yields(value) => Heard(c, Resolved(value))
    case Fails(error) => Heard(c, Rejected(error))
  }

  function Heard(c: Call, s: Settlement): Call {
    if c.settled then c.(waiting := false)
    else c.(waiting := false, armed := false, listening := false, settled := true).Settle(s)
  }

  /** Events that can no longer reach the call change nothing. */
  function Run(c: Call, es: seq<Event>): Call
    decreases |es|
  {
    if es == [] then c else Run(if Enabled(c, es[0]) then Stepped(c, es[0]) else c, es[1..])
  }

  predicate Inv(c: Call) {
    && (c.settled <==> c.promise.Some?)
    && (c.settled ==> !c.armed && !c.listening)
    && (!c.settled ==> c.armed && (c.calling || c.waiting))
    && !(c.calling && c.waiting)
  }

  lemma {:induction false} RunKeepsInv(c: Call, es: seq<Event>)
    requires Inv(c)
    ensures Inv(Run(c, es))
    decreases |es|
  {
    if es != [] {
      RunKeepsInv(if Enabled(c, es[0]) then Stepped(c, es[0]) else c, es[1..]);
    }
  }

  /** What the first event that can settle the call settles it with, read off the
      events alone: an operation is called once and settles after it has returned. */
  function First(timeoutMs: int, calling: bool, live: bool, es: seq<Event>): Option<Settlement>
    decreases |es|
  {
    if es == [] then None
    else
      match es[0]
      case Throws(error) => if calling then Some(Rejected(error)) else First(timeoutMs, calling, live, es[1..])
      case Returns => First(timeoutMs, false, live, es[1..])
      case Yields(value) => if calling then First(timeoutMs, calling, live, es[1..]) else Some(Resolved(value))
      case Fails(error) => if calling then First(timeoutMs, calling, live, es[1..]) else Some(Rejected(error))
      case TimerFires => if calling then First(timeoutMs, calling, live, es[1..]) else Some(TimedOut(timeoutMs))
      case SignalAborts => if live then Some(Aborted) else First(timeoutMs, calling, live, es[1..])
  }

  predicate Refused(timeoutMs: int, signal: Signal) { timeoutMs <= 0 || signal.AlreadyAborted? }

  /** What the promise should settle with: no time left comes before an abort, and an
      abort before anything the operation does. */
  function Expected(timeoutMs: int, signal: Signal, es: seq<Event>): Option<Settlement> {
    if timeoutMs <= 0 then Some(TimedOut(0))
    else if signal.AlreadyAborted? then Some(Aborted)
    else First(timeoutMs, true, signal.Live?, es)
  }

  function Settling(p: Option<Settlement>): seq<Happening> { if p.Some? then [Settled(p.value)] else [] }

  lemma {:induction false} SettledStays(c: Call, es: seq<Event>)
    requires Inv(c) && c.settled
    ensures var r := Run(c, es); r.promise == c.promise && r.trace == c.trace
    decreases |es|
  {
    if es != [] {
      SettledStays(if Enabled(c, es[0]) then Stepped(c, es[0]) else c, es[1..]);
    }
  }

  lemma {:induction false} FirstEventWins(c: Call, es: seq<Event>)
    requires Inv(c) && !c.settled
    ensures var r := Run(c, es);
            && r.promise == First(c.timeoutMs, c.calling, c.listening, es)
            && r.trace == c.trace + Settling(r.promise)
            && (r.promise.None? ==> r.listening == c.listening)
    decreases |es|
  {
    if es != [] {
      var c1 := if Enabled(c, es[0]) then Stepped(c, es[0]) else c;
      if c1.settled {
        SettledStays(c1, es[1..]);
      } else {
        FirstEventWins(c1, es[1..]);
      }
    }
  }

  /** Whatever happens, and in whatever order: the promise settles with the first
      event that can settle it; the operation is called once, or not at all when the
      call is refused; the promise settles at most once, after that call; and the timer
      and the listener on a live signal are in place exactly until the promise settles. */
  lemma SettlesOnceWithFirst(timeoutMs: int, signal: Signal, es: seq<Event>)
    ensures var c := Run(Begin(timeoutMs, signal), es);
            && c.promise == Expected(timeoutMs, signal, es)
            && c.trace == (if Refused(timeoutMs, signal) then [] else [Called]) + Settling(c.promise)
            && (c.armed <==> c.promise.None?)
            && (c.listening <==> c.promise.None? && signal.Live?)
  {
    var c := Begin(timeoutMs, signal);
    RunKeepsInv(c, es);
    if c.settled {
      SettledStays(c, es);
    } else {
      FirstEventWins(c, es);
    }
  }
}
