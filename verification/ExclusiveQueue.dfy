/** `runExclusive` of write-operation-service.ts: a mutual-exclusion queue made of
    chained promises, one chain per intent.

    A call takes the promise stored under its key (or a resolved one), stores a
    promise that resolves once both that one and its own release have resolved,
    and waits. Calls are numbered in the order in which they arrive, so the stored
    promise is named by the number of the call that stored it. */
module ExclusiveQueue {

  datatype Status = Waiting | Running | Done

  /** A call, and the call whose stored promise it found: None stands for
      `Promise.resolve()`. */
  datatype Call<K> = Call(key: K, previous: Previous, status: Status)

  datatype Previous = Resolved | After(call: nat)

  /** `active` is the `activeOperations` map. */
  datatype Queue<K(==)> = Queue(calls: seq<Call<K>>, active: map<K, nat>)

  datatype Action<K> =
    | Arrive(key: K)                      // runExclusive up to its first await
    | Resume(call: nat)                   // the await returns and the operation starts
    | Leave(call: nat, threw: bool)       // the operation returns or throws

  /** `previous.then(() => current)` of call `c` has resolved. */
  predicate HasResolved<K(==)>(calls: seq<Call<K>>, p: Previous)
    decreases match p case Resolved => 0 case After(c) => c + 1
  {
    match p
    case Resolved => true
    case After(c) =>
      c < |calls| && calls[c].status == Done
      && (calls[c].previous.After? ==> calls[c].previous.call < c)
      && HasResolved(calls, calls[c].previous)
  }

  function Step<K>(q: Queue<K>, a: Action<K>): Queue<K> {
    match a
    case Arrive(key) =>
      var previous := if key in q.active then After(q.active[key]) else Resolved;
      Queue(q.calls + [Call(key, previous, Waiting)], q.active[key := |q.calls|])
    case Resume(c) =>
      if c < |q.calls| && q.calls[c].status == Waiting && HasResolved(q.calls, q.calls[c].previous) then
        q.(calls := q.calls[c := q.calls[c].(status := Running)])
      else q
    case Leave(c, _) =>
      if c < |q.calls| && q.calls[c].status == Running then
        var key := q.calls[c].key;
        Queue(q.calls[c := q.calls[c].(status := Done)],
              if key in q.active && q.active[key] == c then q.active - {key} else q.active)
      else q
  }

  function Empty<K>(): Queue<K> { Queue([], map[]) }

  /** No action leads out of the set. */
  ghost predicate Closed<K(!new)>(queues: iset<Queue<K>>) {
    forall q, a :: q in queues ==> Step(q, a) in queues
  }

  /** The queues of all runs from the empty one: those in every set that no run can
      leave. */
  ghost predicate Reached<K(!new)>(q: Queue<K>) {
    forall queues :: Closed(queues) && Empty() in queues ==> q in queues
  }

  // ------------------------------------------------------------- invariant

  /** Call `c` waits directly behind the call that arrived last before it with the
      same key, unless every earlier call with that key is done. */
  ghost predicate Chained<K>(q: Queue<K>, c: nat)
    requires c < |q.calls|
  {
    match q.calls[c].previous
    case Resolved => forall d :: 0 <= d < c && q.calls[d].key == q.calls[c].key ==> q.calls[d].status == Done
    case After(p) =>
      p < c && q.calls[p].key == q.calls[c].key &&
      forall d :: p < d < c ==> q.calls[d].key != q.calls[c].key
  }

  /** A call that has started has only finished calls with its key before it. */
  ghost predicate InTurn<K>(q: Queue<K>, c: nat)
    requires c < |q.calls|
  {
    q.calls[c].status != Waiting ==>
      forall d :: 0 <= d < c && q.calls[d].key == q.calls[c].key ==> q.calls[d].status == Done
  }

  /** The map has an entry for a key exactly while a call with it is unfinished, and
      the entry is the last call with that key. */
  ghost predicate ActiveIsLast<K>(q: Queue<K>) {
    && (forall k :: k in q.active ==>
          q.active[k] < |q.calls| && q.calls[q.active[k]].key == k && q.calls[q.active[k]].status != Done
          && forall d :: q.active[k] < d < |q.calls| ==> q.calls[d].key != k)
    && (forall c :: 0 <= c < |q.calls| && q.calls[c].status != Done ==> q.calls[c].key in q.active)
  }

  ghost predicate Inv<K>(q: Queue<K>) {
    && (forall c :: 0 <= c < |q.calls| ==> Chained(q, c) && InTurn(q, c))
    && ActiveIsLast(q)
  }

  /** The promise a call waits for has resolved exactly when every earlier call with
      its key is done. */
  lemma {:induction false} ResolvedMeansTurn<K>(q: Queue<K>, c: nat)
    requires Inv(q) && c < |q.calls|
    ensures HasResolved(q.calls, q.calls[c].previous) <==>
            forall d :: 0 <= d < c && q.calls[d].key == q.calls[c].key ==> q.calls[d].status == Done
  {
    assert Chained(q, c);
    match q.calls[c].previous
    case Resolved =>
    case After(p) =>
      assert Chained(q, p);
      ResolvedMeansTurn(q, p);
  }

  lemma StepKeepsInv<K>(q: Queue<K>, a: Action<K>)
    requires Inv(q)
    ensures Inv(Step(q, a))
  {
    match a
    case Arrive(key) => ArriveKeepsInv(q, key);
    case Resume(c) =>
      if c < |q.calls| {
        ResolvedMeansTurn(q, c);
        assert Chained(q, c) && InTurn(q, c);
        ResumeKeepsInv(q, c);
      }
    case Leave(c, threw) =>
      if c < |q.calls| {
        LeaveKeepsInv(q, c, threw);
      }
  }

  lemma ArriveKeepsInv<K>(q: Queue<K>, key: K)
    requires Inv(q)
    ensures Inv(Step(q, Arrive(key)))
  {
    var r := Step(q, Arrive(key));
    forall c | 0 <= c < |r.calls| ensures Chained(r, c) && InTurn(r, c) {
      if c < |q.calls| {
        assert Chained(q, c) && InTurn(q, c);
      }
    }
  }

  lemma ResumeKeepsInv<K>(q: Queue<K>, c: nat)
    requires Inv(q) && c < |q.calls|
    requires HasResolved(q.calls, q.calls[c].previous) <==>
             forall d :: 0 <= d < c && q.calls[d].key == q.calls[c].key ==> q.calls[d].status == Done
    ensures Inv(Step(q, Resume(c)))
  {
    var r := Step(q, Resume(c));
    forall e | 0 <= e < |r.calls| ensures Chained(r, e) && InTurn(r, e) {
      assert Chained(q, e) && InTurn(q, e);
    }
  }

  lemma LeaveKeepsInv<K>(q: Queue<K>, c: nat, threw: bool)
    requires Inv(q) && c < |q.calls|
    ensures Inv(Step(q, Leave(c, threw)))
  {
    var r := Step(q, Leave(c, threw));
    forall e | 0 <= e < |r.calls| ensures Chained(r, e) && InTurn(r, e) {
      assert Chained(q, e) && InTurn(q, e);
    }
    if q.calls[c].status == Running {
      assert InTurn(q, c);
    }
  }

  lemma ReachedInv<K(!new)>(q: Queue<K>)
    requires Reached(q)
    ensures Inv(q)
  {
    hide Step;
    var good := iset r: Queue<K> | Inv(r);
    hide Inv;
    forall r: Queue<K>, a | r in good
      ensures Step(r, a) in good
    {
      StepKeepsInv(r, a);
    }
    EmptyInv<K>();
    assert Closed(good) && Empty() in good;
  }

  lemma EmptyInv<K>()
    ensures Inv(Empty<K>())
  {
  }

  // ---------------------------------------------------------- main results

  /** At most one operation per key runs at a time, and operations on a key start in
      the order in which they were called. */
  lemma ExclusiveAndFifo<K(!new)>(q: Queue<K>, c: nat, d: nat)
    requires Reached(q)
    requires c < d < |q.calls| && q.calls[c].key == q.calls[d].key
    ensures q.calls[d].status != Waiting ==> q.calls[c].status == Done
  {
    ReachedInv(q);
    hide Reached;
    assert InTurn(q, d);
  }

  /** `activeOperations` holds an entry for a key exactly while an operation on it is
      running or queued. */
  lemma EntryWhileBusy<K(!new)>(q: Queue<K>, key: K)
    requires Reached(q)
    ensures key in q.active <==>
            exists c :: 0 <= c < |q.calls| && q.calls[c].key == key && q.calls[c].status != Done
  {
    ReachedInv(q);
    hide Reached;
  }

  /** The first unfinished call for a key can always go on: it is running, or it has
      nothing left to wait for. So a key is never blocked, whether the operations
      before returned or threw. */
  lemma NeverBlocked<K(!new)>(q: Queue<K>, c: nat)
    requires Reached(q)
    requires c < |q.calls| && q.calls[c].status == Waiting
    requires forall d :: 0 <= d < c && q.calls[d].key == q.calls[c].key ==> q.calls[d].status == Done
    ensures Step(q, Resume(c)).calls[c].status == Running
  {
    ReachedInv(q);
    hide Reached;
    ResolvedMeansTurn(q, c);
  }

  /** An operation that ends, whether it returns or throws, lets the next one go on:
      the promise stored for it has resolved, and the first waiting call behind it with
      its key, whose own promise has therefore resolved too, starts when it resumes. */
  lemma ThrowReleases<K(!new)>(q: Queue<K>, c: nat, d: nat, threw: bool)
    requires Reached(q)
    requires c < d < |q.calls| && q.calls[c].status == Running && q.calls[d].key == q.calls[c].key
    requires forall e :: c < e < d && q.calls[e].key == q.calls[c].key ==> q.calls[e].status == Done
    ensures var r := Step(q, Leave(c, threw));
            && r.calls[c].status == Done && HasResolved(r.calls, After(c))
            && r.calls[d].status == Waiting && HasResolved(r.calls, r.calls[d].previous)
            && Step(r, Resume(d)).calls[d].status == Running
  {
    ReachedInv(q);
    hide Reached;
    StepKeepsInv(q, Leave(c, threw));
    assert InTurn(q, c) && InTurn(q, d);
    var r := Step(q, Leave(c, threw));
    ResolvedMeansTurn(r, c);
    ResolvedMeansTurn(r, d);
    assert Chained(r, c);
  }

  // ------------------------------------------------ what users of it rely on

  /** The running operations, by key: a plain table of locks. */
  ghost function Holders<K>(q: Queue<K>): map<K, nat> {
    map k | k in q.active && exists c :: IsHolder(q, k, c) :: var c :| IsHolder(q, k, c); c
  }

  ghost predicate IsHolder<K>(q: Queue<K>, k: K, c: nat) {
    c < |q.calls| && q.calls[c].key == k && q.calls[c].status == Running
  }

  /** In every reachable queue the table names exactly the running operations. */
  lemma HoldersExact<K>(q: Queue<K>, k: K, c: nat)
    requires Inv(q)
    ensures IsHolder(q, k, c) <==> k in Holders(q) && Holders(q)[k] == c
  {
    if IsHolder(q, k, c) {
      assert q.calls[c].key in q.active;
      var d := Holders(q)[k];
      assert IsHolder(q, k, d);
      assert InTurn(q, c) && InTurn(q, d);
    }
  }

  /** Two reachable queues whose running operations differ only at one key. */
  lemma SameHoldersElsewhere<K>(q: Queue<K>, r: Queue<K>, key: K)
    requires Inv(q) && Inv(r)
    requires forall k, c :: k != key ==> (IsHolder(q, k, c) <==> IsHolder(r, k, c))
    ensures Holders(q) - {key} == Holders(r) - {key}
  {
    forall k | k != key
      ensures k in Holders(q) <==> k in Holders(r)
      ensures k in Holders(q) ==> Holders(q)[k] == Holders(r)[k]
    {
      if k in Holders(q) {
        HoldersExact(q, k, Holders(q)[k]);
        HoldersExact(r, k, Holders(q)[k]);
      }
      if k in Holders(r) {
        HoldersExact(r, k, Holders(r)[k]);
        HoldersExact(q, k, Holders(r)[k]);
      }
    }
  }

  lemma NoHolder<K>(q: Queue<K>, key: K)
    requires Inv(q) && forall c :: !IsHolder(q, key, c)
    ensures Holders(q) - {key} == Holders(q) && key !in Holders(q)
  {
    if key in Holders(q) {
      HoldersExact(q, key, Holders(q)[key]);
    }
  }

  lemma ResumeTakesLock<K>(q: Queue<K>, c: nat)
    requires Inv(q) && Inv(Step(q, Resume(c))) && c < |q.calls|
    ensures var r := Step(q, Resume(c));
            r == q || (q.calls[c].key !in Holders(q) && Holders(r) == Holders(q)[q.calls[c].key := c])
  {
    var r := Step(q, Resume(c));
    if r != q {
      var key := q.calls[c].key;
      ResolvedMeansTurn(q, c);
      forall d: nat ensures !IsHolder(q, key, d) {
        if d < |q.calls| {
          assert InTurn(q, d);
        }
      }
      NoHolder(q, key);
      SameHoldersElsewhere(q, r, key);
      HoldersExact(r, key, c);
      assert Holders(r) == (Holders(r) - {key})[key := c];
    }
  }

  lemma LeaveFreesLock<K>(q: Queue<K>, c: nat, threw: bool)
    requires Inv(q) && Inv(Step(q, Leave(c, threw))) && c < |q.calls|
    ensures var r := Step(q, Leave(c, threw));
            r == q || (Holders(r) == Holders(q) - {q.calls[c].key}
                       && q.calls[c].key in Holders(q) && Holders(q)[q.calls[c].key] == c)
  {
    var r := Step(q, Leave(c, threw));
    if r != q {
      var key := q.calls[c].key;
      HoldersExact(q, key, c);
      forall d: nat ensures !IsHolder(r, key, d) {
        HoldersExact(q, key, d);
      }
      NoHolder(r, key);
      SameHoldersElsewhere(q, r, key);
    }
  }

  /** The promise chain refines the table: an operation starts only by taking a free
      lock, an operation ends only by freeing the lock it holds, and nothing else
      changes the table. */
  lemma RefinesLockTable<K(!new)>(q: Queue<K>, a: Action<K>)
    requires Reached(q)
    ensures var r := Step(q, a);
            match a
            case Arrive(_) => Holders(r) == Holders(q)
            case Resume(c) =>
              r == q || (c < |q.calls| && q.calls[c].key !in Holders(q)
                         && Holders(r) == Holders(q)[q.calls[c].key := c])
            case Leave(c, _) =>
              r == q || (c < |q.calls| && Holders(r) == Holders(q) - {q.calls[c].key}
                         && q.calls[c].key in Holders(q) && Holders(q)[q.calls[c].key] == c)
  {
    ReachedInv(q);
    hide Reached;
    StepKeepsInv(q, a);
    match a
    case Arrive(key) =>
      var r := Step(q, a);
      SameHoldersElsewhere(q, r, key);
      SameHolder(q, r, key);
    case Resume(c) =>
      if c < |q.calls| {
        ResumeTakesLock(q, c);
      }
    case Leave(c, threw) =>
      if c < |q.calls| {
        LeaveFreesLock(q, c, threw);
      }
  }

  lemma SameHolder<K>(q: Queue<K>, r: Queue<K>, key: K)
    requires Inv(q) && Inv(r) && Holders(q) - {key} == Holders(r) - {key}
    requires forall c :: IsHolder(q, key, c) <==> IsHolder(r, key, c)
    ensures Holders(q) == Holders(r)
  {
    if key in Holders(q) {
      HoldersExact(q, key, Holders(q)[key]);
      HoldersExact(r, key, Holders(q)[key]);
      assert Holders(q) == (Holders(q) - {key})[key := Holders(q)[key]];
      assert Holders(r) == (Holders(r) - {key})[key := Holders(q)[key]];
    } else if key in Holders(r) {
      HoldersExact(r, key, Holders(r)[key]);
      HoldersExact(q, key, Holders(r)[key]);
    } else {
      assert Holders(q) == Holders(q) - {key};
      assert Holders(r) == Holders(r) - {key};
    }
  }
}
