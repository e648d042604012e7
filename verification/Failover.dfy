/** The failing-over transport of rpc-client.ts: one time budget shared by an
    ordered list of endpoints. */
module Failover {
  import opened JsText

  // ----------------------------------------------------------- endpoint lists

  function Trimmed(urls: seq<Text>): (r: seq<Text>)
    ensures |r| == |urls|
  {
    seq(|urls|, i requires 0 <= i < |urls| => Trim(urls[i]))
  }

  /** `[...new Set(list)]` of the texts that are not empty. */
  function Distinct(list: seq<Text>): (r: seq<Text>)
    ensures forall x :: x in r <==> x in list && x != []
    ensures forall i, j :: 0 <= i < j < |r| ==> r[i] != r[j]
  {
    if list == [] then []
    else
      var last := list[|list| - 1];
      var r := Distinct(list[..|list| - 1]);
      assert list == list[..|list| - 1] + [last];
      if last == [] || last in r then r else r + [last]
  }

  /** `toRpcUrlList` */
  function ToRpcUrlList(urls: seq<Text>): seq<Text> { Distinct(Trimmed(urls)) }

  lemma {:induction false} DistinctKeeps(r: seq<Text>)
    requires forall i, j :: 0 <= i < j < |r| ==> r[i] != r[j]
    requires [] !in r
    ensures Distinct(r) == r
  {
    if r != [] {
      var rest := r[..|r| - 1];
      DistinctKeeps(rest);
      assert r == rest + [r[|r| - 1]];
    }
  }

  lemma {:induction false} TrimTwice(t: Text)
    ensures Trim(Trim(t)) == Trim(t)
    decreases |t|
  {
    if t != [] {
      if IsTrimmed(t[0]) {
        TrimTwice(t[1..]);
      } else if IsTrimmed(t[|t| - 1]) {
        TrimTwice(t[..|t| - 1]);
      }
    }
  }

  /** The list holds exactly the trimmed texts that are not blank, each once. */
  lemma UrlListMembers(urls: seq<Text>)
    ensures forall x :: x in ToRpcUrlList(urls) <==> x != [] && exists i :: 0 <= i < |urls| && Trim(urls[i]) == x
    ensures forall i, j :: 0 <= i < j < |ToRpcUrlList(urls)| ==> ToRpcUrlList(urls)[i] != ToRpcUrlList(urls)[j]
  {
    var list := Trimmed(urls);
    forall x
      ensures x in list <==> exists i :: 0 <= i < |urls| && Trim(urls[i]) == x
    {
      if x in list {
        var i :| 0 <= i < |list| && list[i] == x;
        assert Trim(urls[i]) == x;
      }
      if i :| 0 <= i < |urls| && Trim(urls[i]) == x {
        assert list[i] == x;
      }
    }
  }

  /** Normalising twice changes nothing. */
  lemma UrlListStable(urls: seq<Text>)
    ensures ToRpcUrlList(ToRpcUrlList(urls)) == ToRpcUrlList(urls)
  {
    var r := ToRpcUrlList(urls);
    UrlListMembers(urls);
    forall k | 0 <= k < |r|
      ensures Trimmed(r)[k] == r[k]
    {
      assert r[k] in r;
      var i :| 0 <= i < |urls| && Trim(urls[i]) == r[k];
      TrimTwice(urls[i]);
    }
    assert Trimmed(r) == r;
    DistinctKeeps(r);
  }

  /** Endpoints come in the order in which they are first named. */
  lemma {:induction false} UrlListOrder(urls: seq<Text>, k: nat)
    requires k <= |urls|
    ensures ToRpcUrlList(urls[..k]) <= ToRpcUrlList(urls)
    decreases |urls| - k
  {
    if k < |urls| {
      UrlListOrder(urls, k + 1);
      var list := Trimmed(urls[..k + 1]);
      assert list[..k] == Trimmed(urls[..k]);
    } else {
      assert urls[..k] == urls;
    }
  }

  // ------------------------------------------------------------------ attempts

  const MAX_ATTEMPT_TIMEOUT_MS: int := 8_000

  /** What one request came to. A reply is definitive when the chain gave it: a
      value, a JSON-RPC error with a code, or word that the method is unknown. */
  datatype Reply =
    | Value(text: Text) | Rejected(code: Text) | Unsupported(text: Text) | Transport(text: Text) | TimedOut(ms: int)
  {
    predicate Definitive() { Value? || Rejected? || Unsupported? }
  }

  /** What an endpoint would answer to a request sent at a time, and how much later. */
  datatype Response = Response(delay: nat, reply: Reply)

  type Network = (Text, int) -> Response

  datatype Attempt = Attempt(url: Text, at: int, cap: int, reply: Reply)

  datatype Outcome = Answered(reply: Reply) | Exhausted(last: Reply, attempted: nat, of: nat)

  /** `toLowerCase` as far as it can give a Latin letter: U+212A gives `k`. */
  function LowerMethod(t: Text): Text {
    seq(|t|, i requires 0 <= i < |t| => if t[i] == 0x212A then 107 else LowerUnit(t[i]))
  }

  /** The methods that send something to the chain. */
  predicate IsSubmission(query: Text) {
    LowerMethod(query) == Ascii("sendrawtransaction") || LowerMethod(query) == Ascii("submitblock")
  }

  /** `executeQuery`: the timer ends a request that has not been answered before `cap`. */
  function Asked(net: Network, url: Text, now: int, cap: int): (r: (int, Reply))
    ensures now <= r.0 <= now + Max(0, cap)
  {
    var response := net(url, now);
    if response.delay < cap then (now + response.delay, response.reply) else (now + Max(0, cap), TimedOut(cap))
  }

  /** The attempt is one that the network answers so. */
  predicate Genuine(net: Network, a: Attempt) { a.reply == Asked(net, a.url, a.at, a.cap).1 }

  /** The time limit of a request when `budget` is left. */
  function Cap(budget: int, isLastEndpoint: bool): (c: int)
    ensures c <= budget && (!isLastEndpoint ==> c <= MAX_ATTEMPT_TIMEOUT_MS)
  {
    if isLastEndpoint then budget else Min(budget, MAX_ATTEMPT_TIMEOUT_MS)
  }

  /** The endpoints that a query may be sent to. */
  function Endpoints(rpcUrls: seq<Text>, query: Text): seq<Text>
    requires rpcUrls != []
  {
    if IsSubmission(query) then rpcUrls[..1] else rpcUrls
  }

  /** None of the first i attempts was answered definitively. */
  predicate NoAnswerBefore(asked: seq<Attempt>, i: int) {
    forall k :: 0 <= k < i && k < |asked| ==> !asked[k].reply.Definitive()
  }

  /** The time at which an attempt ended. */
  function EndOf(net: Network, a: Attempt): int { Asked(net, a.url, a.at, a.cap).0 }

  /** The time after some attempts. */
  function NowAfter(net: Network, asked: seq<Attempt>, startedAt: int): int {
    if asked == [] then startedAt else EndOf(net, asked[|asked| - 1])
  }

  /** The endpoints asked are the first of the list, in order; each is asked when the
      one before gave up, and only then, for what is left of the budget, which for
      all but the last endpoint is at most eight seconds. */
  ghost predicate Sweep(net: Network, endpoints: seq<Text>, asked: seq<Attempt>, timeoutMs: int, startedAt: int) {
    && |asked| <= |endpoints|
    && (asked != [] ==> asked[0].at == startedAt)
    && (forall i :: 0 <= i < |asked| ==>
          && asked[i].url == endpoints[i] && Genuine(net, asked[i])
          && asked[i].cap == Cap(timeoutMs - (asked[i].at - startedAt), i + 1 == |endpoints|))
    && (forall i :: 0 <= i < |asked| - 1 ==>
          !asked[i].reply.Definitive() && asked[i + 1].at == EndOf(net, asked[i]))
  }

  lemma OneMore(net: Network, endpoints: seq<Text>, asked: seq<Attempt>, timeoutMs: int, startedAt: int,
                a: Attempt, all: seq<Attempt>)
    requires Sweep(net, endpoints, asked, timeoutMs, startedAt) && |asked| < |endpoints| && Genuine(net, a)
    requires asked != [] ==> !asked[|asked| - 1].reply.Definitive()
    requires a.url == endpoints[|asked|] && a.at == NowAfter(net, asked, startedAt)
    requires a.cap == Cap(timeoutMs - (a.at - startedAt), |asked| + 1 == |endpoints|)
    requires all == asked + [a]
    ensures Sweep(net, endpoints, all, timeoutMs, startedAt)
    ensures NowAfter(net, all, startedAt) == Asked(net, a.url, a.at, a.cap).0
  {
    hide Asked, Genuine;
    assert forall i :: 0 <= i < |asked| ==> all[i] == asked[i];
    assert all[|asked|] == a;
  }

  /** The time budget of a call, which may only shorten that of its client. */
  function Budget(timeoutMs: int, requested: Option<int>): int {
    if requested.None? then timeoutMs else Min(timeoutMs, requested.value)
  }

  /** The outcome of a sweep over a list of endpoints: the definitive answer that ended
      it, or what the last endpoint came to. */
  predicate Concludes(outcome: Outcome, asked: seq<Attempt>, endpoints: seq<Text>)
    requires asked != []
  {
    var last := asked[|asked| - 1].reply;
    outcome == if last.Definitive() then Answered(last) else Exhausted(last, |asked|, |endpoints|)
  }

  /** No endpoint was left out too early: a sweep without an answer that did not reach
      the end of its list spent the budget, which lasts for one more endpoint every
      eight seconds. */
  ghost predicate Persists(asked: seq<Attempt>, endpoints: seq<Text>, budget: int, elapsed: int) {
    && (NoAnswerBefore(asked, |asked|) && |asked| < |endpoints| ==> elapsed >= budget)
    && forall i | 0 <= i < |endpoints| && i * MAX_ATTEMPT_TIMEOUT_MS < budget ::
         NoAnswerBefore(asked, i) ==> i < |asked|
  }

  /** `executeWithFailover`, with the list of endpoints that `createRpcClient` keeps. */
  method ExecuteWithFailover(rpcUrls: seq<Text>, query: Text, timeoutMs: int, net: Network, startedAt: int)
    returns (outcome: Outcome, now: int, asked: seq<Attempt>)
    requires rpcUrls != []
    ensures asked != [] && Sweep(net, Endpoints(rpcUrls, query), asked, timeoutMs, startedAt)
    // The whole call keeps to its budget.
    ensures startedAt <= now <= startedAt + Max(0, timeoutMs) && now == NowAfter(net, asked, startedAt)
    ensures Concludes(outcome, asked, Endpoints(rpcUrls, query))
    ensures Persists(asked, Endpoints(rpcUrls, query), timeoutMs, now - startedAt)
  {
    hide Asked, IsSubmission, Sweep;
    var failoverAllowed := |rpcUrls| > 1 && !IsSubmission(query);
    var endpoints := if failoverAllowed then rpcUrls else rpcUrls[..1];
    assert endpoints == Endpoints(rpcUrls, query);
    now := startedAt;
    var lastError := Transport([]);
    var attempted := 0;
    asked := [];
    Unasked(net, endpoints, timeoutMs, startedAt);
    var index := 0;
    while index < |endpoints|
      invariant 0 <= index <= |endpoints| && attempted == index == |asked|
      invariant startedAt <= now <= startedAt + Max(0, timeoutMs) && now == NowAfter(net, asked, startedAt)
      invariant index < |endpoints| ==> now - startedAt <= index * MAX_ATTEMPT_TIMEOUT_MS
      invariant Sweep(net, endpoints, asked, timeoutMs, startedAt)
      invariant index > 0 ==> lastError == asked[index - 1].reply && !lastError.Definitive()
    {
      var remaining := timeoutMs - (now - startedAt);
      if attempted > 0 && remaining <= 0 { break; }
      var isLastEndpoint := index == |endpoints| - 1;
      var budget := if attempted == 0 then timeoutMs else remaining;
      var attemptTimeoutMs := if isLastEndpoint then budget else Min(budget, MAX_ATTEMPT_TIMEOUT_MS);
      attempted := attempted + 1;
      var (end, reply) := Asked(net, endpoints[index], now, attemptTimeoutMs);
      var attempt := Attempt(endpoints[index], now, attemptTimeoutMs, reply);
      OneMore(net, endpoints, asked, timeoutMs, startedAt, attempt, asked + [attempt]);
      asked := asked + [attempt];
      now := end;
      if reply.Definitive() {
        AnswerIsLast(net, endpoints, asked, timeoutMs, startedAt);
        return Answered(reply), now, asked;
      }
      lastError := reply;
      index := index + 1;
    }
    return Exhausted(lastError, attempted, |endpoints|), now, asked;
  }

  lemma Unasked(net: Network, endpoints: seq<Text>, timeoutMs: int, startedAt: int)
    ensures Sweep(net, endpoints, [], timeoutMs, startedAt)
  {
  }

  lemma AnswerIsLast(net: Network, endpoints: seq<Text>, asked: seq<Attempt>, timeoutMs: int, startedAt: int)
    requires asked != [] && Sweep(net, endpoints, asked, timeoutMs, startedAt)
    requires asked[|asked| - 1].reply.Definitive()
    ensures forall i :: i >= |asked| ==> !NoAnswerBefore(asked, i)
  {
  }

  /** A sweep in the network's own terms: every reply but the last is a failure of the
      transport or a timeout, every reply is what the network gives within the limit of
      the attempt, and each attempt begins when the one before is over. */
  lemma SweepTells(net: Network, endpoints: seq<Text>, asked: seq<Attempt>, timeoutMs: int, startedAt: int, i: nat)
    requires Sweep(net, endpoints, asked, timeoutMs, startedAt) && i < |asked|
    ensures var a := asked[i];
            var response := net(a.url, a.at);
            && a.url == endpoints[i]
            && a.at == (if i == 0 then startedAt else
                          var b := asked[i - 1];
                          if net(b.url, b.at).delay < b.cap then b.at + net(b.url, b.at).delay
                          else if b.cap < 0 then b.at else b.at + b.cap)
            && a.cap == (var left := timeoutMs - (a.at - startedAt);
                         if i + 1 == |endpoints| || left < 8_000 then left else 8_000)
            && (response.delay < a.cap ==> a.reply == response.reply)
            && (response.delay >= a.cap ==> a.reply == TimedOut(a.cap))
            && (i + 1 < |asked| ==> a.reply.Transport? || a.reply.TimedOut?)
  {
  }

  /** A value, an error with a code and an unknown method end the sweep and are its
      outcome; a failure of the transport and a timeout do not, and exhaust it. */
  lemma OutcomeTells(outcome: Outcome, asked: seq<Attempt>, endpoints: seq<Text>)
    requires asked != [] && Concludes(outcome, asked, endpoints)
    ensures var last := asked[|asked| - 1].reply;
            && (last.Value? || last.Rejected? || last.Unsupported? ==> outcome == Answered(last))
            && (last.Transport? || last.TimedOut? ==> outcome == Exhausted(last, |asked|, |endpoints|))
  {
  }

  /** The text is this name, in capitals or not; U+212A is a capital K too. */
  predicate SpellsMethod(t: Text, name: Text) {
    |t| == |name| && forall i :: 0 <= i < |t| ==>
      t[i] == name[i] || (97 <= name[i] <= 122 && t[i] == name[i] - 32) || (name[i] == 107 && t[i] == 0x212A)
  }

  /** The methods that are never sent twice. */
  lemma SubmissionsAre(query: Text)
    ensures IsSubmission(query) <==>
            SpellsMethod(query, Ascii("sendrawtransaction")) || SpellsMethod(query, Ascii("submitblock"))
  {
    SpelledAlike(query, Ascii("sendrawtransaction"));
    SpelledAlike(query, Ascii("submitblock"));
  }

  lemma SpelledAlike(t: Text, name: Text)
    requires forall i :: 0 <= i < |name| ==> 97 <= name[i] <= 122
    ensures LowerMethod(t) == name <==> SpellsMethod(t, name)
  {
    if |t| == |name| {
      forall i | 0 <= i < |t|
        ensures LowerMethod(t)[i] == name[i] <==>
                t[i] == name[i] || t[i] == name[i] - 32 || (name[i] == 107 && t[i] == 0x212A)
      {
      }
      if SpellsMethod(t, name) {
        assert forall i :: 0 <= i < |t| ==> LowerMethod(t)[i] == name[i];
      }
    }
  }

  lemma AskedOnce(net: Network, endpoints: seq<Text>, asked: seq<Attempt>, timeoutMs: int, startedAt: int)
    requires Sweep(net, endpoints, asked, timeoutMs, startedAt)
    requires forall i, j :: 0 <= i < j < |endpoints| ==> endpoints[i] != endpoints[j]
    ensures forall i, j :: 0 <= i < j < |asked| ==> asked[i].url != asked[j].url
    ensures |asked| <= |endpoints| && forall i :: 0 <= i < |asked| ==> asked[i].url in endpoints
  {
    hide Asked, Genuine;
  }

  lemma UsableUrls(urls: seq<Text>)
    ensures ToRpcUrlList(urls) == [] <==> forall i :: 0 <= i < |urls| ==> Trim(urls[i]) == []
    ensures var r := ToRpcUrlList(urls); forall i, j :: 0 <= i < j < |r| ==> r[i] != r[j]
  {
    UrlListMembers(urls);
    var r := ToRpcUrlList(urls);
    if r != [] {
      assert r[0] in r;
    } else {
      forall i | 0 <= i < |urls|
        ensures Trim(urls[i]) == []
      {
        assert Trim(urls[i]) !in r;
      }
    }
  }

  /** `createRpcClient(...).execute`: no usable endpoint is an error; otherwise the
      usable endpoints are swept within the budget of the call. */
  method Execute(rpcUrls: seq<Text>, query: Text, timeoutMs: int, requested: Option<int>, net: Network, startedAt: int)
    returns (outcome: Result<Outcome, Text>, now: int, asked: seq<Attempt>)
    ensures outcome.Err? <==> forall i :: 0 <= i < |rpcUrls| ==> Trim(rpcUrls[i]) == []
    ensures outcome.Err? ==> asked == [] && now == startedAt
    ensures forall i, j :: 0 <= i < j < |asked| ==> asked[i].url != asked[j].url
    ensures forall i :: 0 <= i < |asked| ==> asked[i].url in ToRpcUrlList(rpcUrls)
    ensures IsSubmission(query) ==> |asked| <= 1
    ensures now <= startedAt + Max(0, timeoutMs)
    ensures requested.Some? ==> now <= startedAt + Max(0, requested.value)
    ensures outcome.Ok? ==>
              var urls := ToRpcUrlList(rpcUrls);
              var budget := Budget(timeoutMs, requested);
              && urls != [] && asked != [] && Sweep(net, Endpoints(urls, query), asked, budget, startedAt)
              && now == NowAfter(net, asked, startedAt) && Concludes(outcome.value, asked, Endpoints(urls, query))
              && Persists(asked, Endpoints(urls, query), budget, now - startedAt)
  {
    hide Sweep, Asked, IsSubmission, ToRpcUrlList, Trim, Concludes, Persists, NowAfter;
    var endpoints := ToRpcUrlList(rpcUrls);
    UsableUrls(rpcUrls);
    if endpoints == [] {
      return Err(Ascii("createRpcClient requires at least one RPC URL")), startedAt, [];
    }
    var effective := if requested.None? then timeoutMs else Min(timeoutMs, requested.value);
    assert effective == Budget(timeoutMs, requested);
    var swept;
    swept, now, asked := ExecuteWithFailover(endpoints, query, effective, net, startedAt);
    AskedOnce(net, Endpoints(endpoints, query), asked, effective, startedAt);
    outcome := Ok(swept);
  }
}
