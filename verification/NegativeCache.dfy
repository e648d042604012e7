/** Name resolution in n3index-client.ts: a bounded cache of names that were not
    found, and one lookup at a time for each name. */
module NegativeCache {
  import opened JsText

  /** An entry of the insertion-ordered map of names that were not found. */
  datatype Entry = Entry(key: Text, expiry: int)

  datatype Settings = Settings(ttlMs: int, maxEntries: int) {
    predicate Valid() { ttlMs > 0 && maxEntries > 0 }
  }

  datatype Answer = Found | Missing | Failed

  /** A lookup on the network. Once settled, its promise has run its `then` handler
      and has yet to run its `finally` handler. */
  datatype Lookup = Lookup(key: Text, settled: bool)

  datatype NullAnswer = NullAnswer(key: Text, at: int)

  /** `requests` says which lookup callers of a name share. `nulls` is the history of
      lookups that found nothing, latest first. */
  datatype State = State(
    cache: seq<Entry>, requests: map<Text, nat>, lookups: map<nat, Lookup>, next: nat, nulls: seq<NullAnswer>)

  /** What a caller gets at once: null, or the promise of a lookup. */
  datatype Outcome = NoName | CachedNull | Waits(id: nat)

  datatype Event = Resolve(key: Text, now: int) | Settle(id: nat, answer: Answer, now: int) | Release(id: nat)

  // --------------------------------------------------------- the ordered map

  function Keys(cache: seq<Entry>): set<Text> { set i | 0 <= i < |cache| :: cache[i].key }

  function Find(cache: seq<Entry>, key: Text): (e: Option<Entry>)
    ensures e.Some? ==> e.value in cache && e.value.key == key
    ensures e.None? ==> key !in Keys(cache)
  {
    if cache == [] then None
    else if cache[0].key == key then Some(cache[0])
    else
      assert forall i :: 0 < i < |cache| ==> cache[i] == cache[1..][i - 1];
      Find(cache[1..], key)
  }

  function Without(cache: seq<Entry>, key: Text): (r: seq<Entry>)
    ensures |r| <= |cache|
  {
    if cache == [] then []
    else if cache[0].key == key then Without(cache[1..], key)
    else [cache[0]] + Without(cache[1..], key)
  }

  function Purged(cache: seq<Entry>, now: int): (r: seq<Entry>)
    ensures |r| <= |cache|
  {
    if cache == [] then []
    else if cache[0].expiry <= now then Purged(cache[1..], now)
    else [cache[0]] + Purged(cache[1..], now)
  }

  /** The latest `count` entries, or all. */
  function Latest(cache: seq<Entry>, count: nat): (r: seq<Entry>)
    ensures |r| <= count && |r| <= |cache|
  {
    if |cache| > count then cache[|cache| - count..] else cache
  }

  /** What `cacheNegativeResult` leaves. */
  function Cached(cfg: Settings, cache: seq<Entry>, key: Text, now: int): (r: seq<Entry>)
    requires cfg.Valid()
    ensures 1 <= |r| <= cfg.maxEntries
  {
    Latest(Without(Purged(cache, now), key), cfg.maxEntries - 1) + [Entry(key, now + cfg.ttlMs)]
  }

  // ------------------------------------------------------------------- steps

  function Resolved(s: State, key: Text, now: int): (State, Outcome) {
    var found := Find(s.cache, key);
    if found.Some? && found.value.expiry > now then (s, CachedNull)
    else
      var s1 := if found.Some? then s.(cache := Without(s.cache, key)) else s;
      if key in s.requests then (s1, Waits(s.requests[key]))
      else
        (s1.(requests := s.requests[key := s.next], lookups := s.lookups[s.next := Lookup(key, false)],
             next := s.next + 1),
         Waits(s.next))
  }

  function Settled(cfg: Settings, s: State, id: nat, answer: Answer, now: int): State
    requires cfg.Valid() && id in s.lookups
  {
    var key := s.lookups[id].key;
    var s1 := s.(lookups := s.lookups[id := Lookup(key, true)]);
    if answer == Missing then
      s1.(cache := Cached(cfg, s.cache, key, now), nulls := [NullAnswer(key, now)] + s.nulls)
    else s1
  }

  function Released(s: State, id: nat): State
    requires id in s.lookups
  {
    s.(requests := s.requests - {s.lookups[id].key}, lookups := s.lookups - {id})
  }

  /** Events that cannot happen change nothing. */
  function Step(cfg: Settings, s: State, e: Event): State
    requires cfg.Valid()
  {
    match e
    case Resolve(key, now) => Resolved(s, key, now).0
    case Settle(id, answer, now) =>
      if id in s.lookups && !s.lookups[id].settled then Settled(cfg, s, id, answer, now) else s
    case Release(id) => if id in s.lookups && s.lookups[id].settled then Released(s, id) else s
  }

  function Run(cfg: Settings, s: State, es: seq<Event>): State
    requires cfg.Valid()
    decreases |es|
  {
    if es == [] then s else Run(cfg, Step(cfg, s, es[0]), es[1..])
  }

  const START := State([], map[], map[], 0, [])

  /** The clock after an event; it never goes back. */
  function After(e: Event, t: int): int {
    match e
    case Resolve(_, now) => now
    case Settle(_, _, now) => now
    case Release(_) => t
  }

  predicate Clocked(es: seq<Event>, t: int) {
    es == [] || (t <= After(es[0], t) && Clocked(es[1..], After(es[0], t)))
  }

  function ClockAfter(es: seq<Event>, t: int): int {
    if es == [] then t else ClockAfter(es[1..], After(es[0], t))
  }

  lemma Removed(cache: seq<Entry>, i: nat)
    requires i < |cache|
    ensures cache[i..][1..] == cache[i + 1..] && cache[i..][0] == cache[i]
    ensures var r := cache[..i] + cache[i + 1..]; r[..i] == cache[..i] && r[i..] == cache[i + 1..]
  {
  }

  lemma Regrouped(cache: seq<Entry>, i: nat, rest: seq<Entry>)
    requires i < |cache|
    ensures cache[..i + 1] + rest == cache[..i] + ([cache[i]] + rest)
  {
  }

  // ---------------------------------------------------------------- the object

  /** The client object; the lookups on the network that it started stand beside it. */
  class N3IndexClient {
    var negativeNameCache: seq<Entry>
    var nameRequests: map<Text, nat>
    var lookups: map<nat, Lookup>
    var next: nat
    ghost var nulls: seq<NullAnswer>
    const settings: Settings

    ghost function View(): State
      reads this
    {
      State(negativeNameCache, nameRequests, lookups, next, nulls)
    }

    constructor (settings: Settings)
      ensures View() == START && this.settings == settings
    {
      negativeNameCache, nameRequests, lookups, next, nulls := [], map[], map[], 0, [];
      this.settings := settings;
    }

    method Delete(key: Text)
      modifies this`negativeNameCache
      ensures negativeNameCache == Without(old(negativeNameCache), key)
    {
      var i := 0;
      while i < |negativeNameCache|
        invariant 0 <= i <= |negativeNameCache|
        invariant negativeNameCache[..i] + Without(negativeNameCache[i..], key) == Without(old(negativeNameCache), key)
        decreases |negativeNameCache| - i
      {
        Removed(negativeNameCache, i);
        if negativeNameCache[i].key == key {
          negativeNameCache := negativeNameCache[..i] + negativeNameCache[i + 1..];
        } else {
          Regrouped(negativeNameCache, i, Without(negativeNameCache[i + 1..], key));
          i := i + 1;
        }
      }
      assert negativeNameCache[..i] == negativeNameCache;
    }

    method Purge(now: int)
      modifies this`negativeNameCache
      ensures negativeNameCache == Purged(old(negativeNameCache), now)
    {
      var i := 0;
      while i < |negativeNameCache|
        invariant 0 <= i <= |negativeNameCache|
        invariant negativeNameCache[..i] + Purged(negativeNameCache[i..], now) == Purged(old(negativeNameCache), now)
        decreases |negativeNameCache| - i
      {
        Removed(negativeNameCache, i);
        if negativeNameCache[i].expiry <= now {
          negativeNameCache := negativeNameCache[..i] + negativeNameCache[i + 1..];
        } else {
          Regrouped(negativeNameCache, i, Purged(negativeNameCache[i + 1..], now));
          i := i + 1;
        }
      }
      assert negativeNameCache[..i] == negativeNameCache;
    }

    method CacheNegativeResult(cacheKey: Text, now: int)
      requires settings.Valid()
      modifies this`negativeNameCache
      ensures negativeNameCache == Cached(settings, old(negativeNameCache), cacheKey, now)
    {
      Purge(now);
      Delete(cacheKey);
      ghost var all := negativeNameCache;
      while |negativeNameCache| >= settings.maxEntries
        invariant Latest(negativeNameCache, settings.maxEntries - 1) == Latest(all, settings.maxEntries - 1)
        decreases |negativeNameCache|
      {
        negativeNameCache := negativeNameCache[1..];
      }
      negativeNameCache := negativeNameCache + [Entry(cacheKey, now + settings.ttlMs)];
    }

    /** `resolveByName` up to its first wait, on a name already trimmed and lower-cased. */
    method ResolveByName(network: Text, normalizedReference: Text, now: int) returns (outcome: Outcome)
      modifies this
      ensures normalizedReference == [] ==> outcome == NoName && View() == old(View())
      ensures normalizedReference != [] ==>
                (View(), outcome) == Resolved(old(View()), network + [58] + normalizedReference, now)
    {
      if normalizedReference == [] { return NoName; }
      var cacheKey := network + [58] + normalizedReference;
      var negativeCacheExpiry := Find(negativeNameCache, cacheKey);
      if negativeCacheExpiry.Some? {
        if negativeCacheExpiry.value.expiry > now { return CachedNull; }
        Delete(cacheKey);
      }
      if cacheKey in nameRequests { return Waits(nameRequests[cacheKey]); }
      outcome := Waits(next);
      lookups := lookups[next := Lookup(cacheKey, false)];
      nameRequests := nameRequests[cacheKey := next];
      next := next + 1;
    }

    /** The `then` handler of a lookup, which runs when it settles. */
    method OnSettled(id: nat, answer: Answer, now: int)
      requires settings.Valid() && id in lookups
      modifies this
      ensures View() == Settled(settings, old(View()), id, answer, now)
    {
      var key := lookups[id].key;
      lookups := lookups[id := Lookup(key, true)];
      if answer == Missing {
        CacheNegativeResult(key, now);
        nulls := [NullAnswer(key, now)] + nulls;
      }
    }

    /** The `finally` handler. */
    method OnFinally(id: nat)
      requires id in lookups
      modifies this
      ensures View() == Released(old(View()), id)
    {
      nameRequests := nameRequests - {lookups[id].key};
      lookups := lookups - {id};
    }
  }

  // -------------------------------------------------------------- invariants

  predicate ByExpiry(cache: seq<Entry>) {
    forall i, j :: 0 <= i < j < |cache| ==> cache[i].expiry <= cache[j].expiry
  }

  predicate UniqueKeys(cache: seq<Entry>) {
    forall i, j :: 0 <= i < j < |cache| ==> cache[i].key != cache[j].key
  }

  /** Every entry is there because its name was not found one lifetime before it expires. */
  predicate Backed(cfg: Settings, cache: seq<Entry>, nulls: seq<NullAnswer>) {
    forall i :: 0 <= i < |cache| ==> NullAnswer(cache[i].key, cache[i].expiry - cfg.ttlMs) in nulls
  }

  predicate NotAfter(nulls: seq<NullAnswer>, t: int) { forall i :: 0 <= i < |nulls| ==> nulls[i].at <= t }

  /** Every lookup under way is the one that callers of its name share, and only those are shared. */
  predicate Shared(s: State) {
    && (forall id :: id in s.lookups ==>
          id < s.next && s.lookups[id].key in s.requests && s.requests[s.lookups[id].key] == id)
    && (forall key :: key in s.requests ==> s.requests[key] in s.lookups && s.lookups[s.requests[key]].key == key)
  }

  predicate Inv(cfg: Settings, s: State, t: int) {
    && |s.cache| <= cfg.maxEntries && ByExpiry(s.cache) && UniqueKeys(s.cache)
    && Backed(cfg, s.cache, s.nulls) && NotAfter(s.nulls, t) && Shared(s)
  }

  /** The entries of `r` are entries of `cache` in the same order. */
  ghost predicate Within(r: seq<Entry>, cache: seq<Entry>) {
    (ByExpiry(cache) ==> ByExpiry(r)) && (UniqueKeys(cache) ==> UniqueKeys(r))
    && forall e :: e in r ==> e in cache
  }

  lemma {:induction false} WithoutWithin(cache: seq<Entry>, key: Text)
    ensures Within(Without(cache, key), cache)
    decreases |cache|
  {
    hide Within;
    if cache == [] {
      WithinSelf(cache);
    } else {
      var rest := cache[1..];
      WithoutWithin(rest, key);
      if cache[0].key != key {
        Prepended(cache[0], Without(rest, key), cache);
      } else {
        TailOrdered(cache);
        WithinTwice(Without(rest, key), rest, cache);
      }
    }
  }

  lemma {:induction false} WithoutFacts(cache: seq<Entry>, key: Text)
    ensures Within(Without(cache, key), cache)
    ensures forall e :: e in cache && e.key != key ==> e in Without(cache, key)
    ensures forall e :: e in Without(cache, key) ==> e.key != key
    decreases |cache|
  {
    WithoutWithin(cache, key);
    hide Within;
    if cache != [] {
      WithoutFacts(cache[1..], key);
      assert cache == [cache[0]] + cache[1..];
    }
  }

  lemma {:induction false} PurgedWithin(cache: seq<Entry>, now: int)
    ensures Within(Purged(cache, now), cache)
    decreases |cache|
  {
    hide Within;
    if cache == [] {
      WithinSelf(cache);
    } else {
      var rest := cache[1..];
      PurgedWithin(rest, now);
      if cache[0].expiry > now {
        Prepended(cache[0], Purged(rest, now), cache);
      } else {
        TailOrdered(cache);
        WithinTwice(Purged(rest, now), rest, cache);
      }
    }
  }

  lemma {:induction false} PurgedFacts(cache: seq<Entry>, now: int)
    ensures Within(Purged(cache, now), cache)
    ensures forall e :: e in cache && e.expiry > now ==> e in Purged(cache, now)
    ensures forall e :: e in Purged(cache, now) ==> e.expiry > now
    decreases |cache|
  {
    PurgedWithin(cache, now);
    hide Within;
    if cache != [] {
      PurgedFacts(cache[1..], now);
      assert cache == [cache[0]] + cache[1..];
    }
  }

  lemma WithinSelf(cache: seq<Entry>)
    ensures Within(cache, cache)
  {
  }

  lemma TailOrdered(cache: seq<Entry>)
    requires cache != []
    ensures Within(cache[1..], cache)
  {
  }

  lemma Prepended(e: Entry, r: seq<Entry>, cache: seq<Entry>)
    requires cache != [] && cache[0] == e && Within(r, cache[1..])
    ensures Within([e] + r, cache)
  {
    var all := [e] + r;
    assert forall i :: 0 < i < |all| ==> all[i] == r[i - 1];
    forall i | 0 <= i < |r|
      ensures exists k :: 0 < k < |cache| && cache[k] == r[i]
    {
      assert r[i] in cache[1..];
      var k :| 0 <= k < |cache[1..]| && cache[1..][k] == r[i];
      assert cache[k + 1] == r[i];
    }
  }

  lemma LatestFacts(cache: seq<Entry>, count: nat)
    ensures Within(Latest(cache, count), cache)
  {
  }

  lemma WithinTwice(a: seq<Entry>, b: seq<Entry>, c: seq<Entry>)
    requires Within(a, b) && Within(b, c)
    ensures Within(a, c)
  {
  }

  /** What is kept of the old cache when a name is added. */
  function Kept(cfg: Settings, cache: seq<Entry>, key: Text, now: int): seq<Entry>
    requires cfg.Valid()
  {
    Latest(Without(Purged(cache, now), key), cfg.maxEntries - 1)
  }

  lemma KeptFacts(cfg: Settings, cache: seq<Entry>, key: Text, now: int)
    requires cfg.Valid()
    ensures Within(Kept(cfg, cache, key, now), cache)
    ensures forall e :: e in Kept(cfg, cache, key, now) ==> e.key != key && e.expiry > now
  {
    var p := Purged(cache, now);
    PurgedFacts(cache, now);
    WithoutFacts(p, key);
    LatestFacts(Without(p, key), cfg.maxEntries - 1);
    WithinTwice(Without(p, key), p, cache);
    WithinTwice(Kept(cfg, cache, key, now), Without(p, key), cache);
  }

  lemma CachedKeepsInv(cfg: Settings, s: State, t: int, key: Text, now: int)
    requires cfg.Valid() && Inv(cfg, s, t) && t <= now
    ensures var c := Cached(cfg, s.cache, key, now);
            var nulls := [NullAnswer(key, now)] + s.nulls;
            && |c| <= cfg.maxEntries && ByExpiry(c) && UniqueKeys(c) && Backed(cfg, c, nulls) && NotAfter(nulls, now)
  {
    hide Purged, Without, Latest, ByExpiry, UniqueKeys, Backed, NotAfter, Shared, Within;
    KeptFacts(cfg, s.cache, key, now);
    var kept := Kept(cfg, s.cache, key, now);
    WithinOrdered(kept, s.cache);
    KeptBacked(cfg, s, t, kept, now);
    Later(s.nulls, t, now);
    Appended(cfg, kept, s.nulls, key, now);
  }

  lemma WithinOrdered(r: seq<Entry>, cache: seq<Entry>)
    requires Within(r, cache) && ByExpiry(cache) && UniqueKeys(cache)
    ensures ByExpiry(r) && UniqueKeys(r)
  {
  }

  lemma KeptBacked(cfg: Settings, s: State, t: int, kept: seq<Entry>, now: int)
    requires Inv(cfg, s, t) && t <= now && Within(kept, s.cache)
    ensures forall e :: e in kept ==> e.expiry <= now + cfg.ttlMs
    ensures forall e :: e in kept ==> NullAnswer(e.key, e.expiry - cfg.ttlMs) in s.nulls
  {
    hide Inv;
    forall e | e in kept
      ensures e.expiry <= now + cfg.ttlMs && NullAnswer(e.key, e.expiry - cfg.ttlMs) in s.nulls
    {
      ExpiresInTime(cfg, s, t, e);
    }
  }

  lemma Later(nulls: seq<NullAnswer>, t: int, now: int)
    requires NotAfter(nulls, t) && t <= now
    ensures NotAfter(nulls, now)
  {
  }

  lemma ExpiresInTime(cfg: Settings, s: State, t: int, e: Entry)
    requires Inv(cfg, s, t) && e in s.cache
    ensures e.expiry <= t + cfg.ttlMs && NullAnswer(e.key, e.expiry - cfg.ttlMs) in s.nulls
  {
    var i :| 0 <= i < |s.cache| && s.cache[i] == e;
    var k :| 0 <= k < |s.nulls| && s.nulls[k] == NullAnswer(e.key, e.expiry - cfg.ttlMs);
  }

  lemma Appended(cfg: Settings, kept: seq<Entry>, nulls: seq<NullAnswer>, key: Text, now: int)
    requires ByExpiry(kept) && UniqueKeys(kept) && NotAfter(nulls, now)
    requires forall e :: e in kept ==> e.key != key && e.expiry <= now + cfg.ttlMs
    requires forall e :: e in kept ==> NullAnswer(e.key, e.expiry - cfg.ttlMs) in nulls
    ensures var c := kept + [Entry(key, now + cfg.ttlMs)];
            ByExpiry(c) && UniqueKeys(c) && Backed(cfg, c, [NullAnswer(key, now)] + nulls)
    ensures NotAfter([NullAnswer(key, now)] + nulls, now)
  {
    var c := kept + [Entry(key, now + cfg.ttlMs)];
    var all := [NullAnswer(key, now)] + nulls;
    forall i | 0 <= i < |c|
      ensures NullAnswer(c[i].key, c[i].expiry - cfg.ttlMs) in all
    {
      if i < |kept| {
        assert c[i] == kept[i] && kept[i] in kept;
      } else {
        assert all[0] == NullAnswer(key, now);
      }
    }
    forall i, j | 0 <= i < j < |c|
      ensures c[i].expiry <= c[j].expiry && c[i].key != c[j].key
    {
      assert c[i] == kept[i] && kept[i] in kept;
    }
  }

  lemma WithinBacked(cfg: Settings, r: seq<Entry>, cache: seq<Entry>, nulls: seq<NullAnswer>)
    requires Within(r, cache) && Backed(cfg, cache, nulls)
    ensures Backed(cfg, r, nulls)
  {
    forall i | 0 <= i < |r|
      ensures NullAnswer(r[i].key, r[i].expiry - cfg.ttlMs) in nulls
    {
      assert r[i] in cache;
      var k :| 0 <= k < |cache| && cache[k] == r[i];
    }
  }

  lemma ResolvedShares(s: State, key: Text, now: int)
    requires Shared(s)
    ensures Shared(Resolved(s, key, now).0)
  {
    hide Find, Without;
  }

  lemma ResolvedKeepsInv(cfg: Settings, s: State, t: int, key: Text, now: int)
    requires cfg.Valid() && Inv(cfg, s, t) && t <= now
    ensures Inv(cfg, Resolved(s, key, now).0, now)
  {
    WithoutFacts(s.cache, key);
    WithinBacked(cfg, Without(s.cache, key), s.cache, s.nulls);
    ResolvedShares(s, key, now);
    hide Find, Without, Shared, Backed, ByExpiry, UniqueKeys;
  }

  lemma StepKeepsInv(cfg: Settings, s: State, t: int, e: Event)
    requires cfg.Valid() && Inv(cfg, s, t) && t <= After(e, t)
    ensures Inv(cfg, Step(cfg, s, e), After(e, t))
  {
    match e
    case Resolve(key, now) => ResolvedKeepsInv(cfg, s, t, key, now);
    case Release(id) =>
    case Settle(id, answer, now) =>
      if id in s.lookups {
        CachedKeepsInv(cfg, s, t, s.lookups[id].key, now);
        hide Cached, ByExpiry, UniqueKeys, Backed;
      }
  }

  /** Over any run: the cache stays within its maximum and in the order of expiry,
      with one entry for a name, each backed by a lookup that found nothing. */
  lemma {:induction false} RunKeepsInv(cfg: Settings, s: State, t: int, es: seq<Event>)
    requires cfg.Valid() && Inv(cfg, s, t) && Clocked(es, t)
    ensures Inv(cfg, Run(cfg, s, es), ClockAfter(es, t))
    decreases |es|
  {
    if es != [] {
      StepKeepsInv(cfg, s, t, es[0]);
      RunKeepsInv(cfg, Step(cfg, s, es[0]), After(es[0], t), es[1..]);
    }
  }

  lemma StartInv(cfg: Settings, t: int)
    requires cfg.Valid()
    ensures Inv(cfg, START, t)
  {
  }

  // ------------------------------------------------------------- main results

  /** The event settles a lookup of the name that has not settled yet, with the answer
      that there is no such name. */
  predicate IsMiss(s: State, e: Event, key: Text, at: int) {
    e.Settle? && e.answer.Missing? && e.now == at
    && e.id in s.lookups && !s.lookups[e.id].settled && s.lookups[e.id].key == key
  }

  /** At that time a lookup of the name found nothing. */
  ghost predicate FoundNothing(cfg: Settings, s: State, es: seq<Event>, key: Text, at: int)
    requires cfg.Valid()
  {
    exists i :: 0 <= i < |es| && IsMiss(Run(cfg, s, es[..i]), es[i], key, at)
  }

  /** The history holds what it held before and the lookups that found nothing. */
  lemma {:induction false} HistoryIsEvents(cfg: Settings, s: State, es: seq<Event>, key: Text, at: int)
    requires cfg.Valid()
    ensures NullAnswer(key, at) in Run(cfg, s, es).nulls <==>
            NullAnswer(key, at) in s.nulls || FoundNothing(cfg, s, es, key, at)
    decreases |es|
  {
    hide Cached;
    if es != [] {
      var s1 := Step(cfg, s, es[0]);
      HistoryIsEvents(cfg, s1, es[1..], key, at);
      FirstOrLater(cfg, s, es, key, at);
      StepHistory(cfg, s, es[0], key, at);
    }
  }

  lemma StepHistory(cfg: Settings, s: State, e: Event, key: Text, at: int)
    requires cfg.Valid()
    ensures NullAnswer(key, at) in Step(cfg, s, e).nulls <==> NullAnswer(key, at) in s.nulls || IsMiss(s, e, key, at)
  {
    hide Cached, Find, Without;
  }

  lemma FirstOrLater(cfg: Settings, s: State, es: seq<Event>, key: Text, at: int)
    requires cfg.Valid() && es != []
    ensures FoundNothing(cfg, s, es, key, at) <==>
            IsMiss(s, es[0], key, at) || FoundNothing(cfg, Step(cfg, s, es[0]), es[1..], key, at)
  {
    hide Step, IsMiss;
    var s1 := Step(cfg, s, es[0]);
    assert Run(cfg, s, es[..0]) == s;
    forall i | 0 < i < |es|
      ensures Run(cfg, s, es[..i]) == Run(cfg, s1, es[1..][..i - 1]) && es[i] == es[1..][i - 1]
    {
      assert es[..i][1..] == es[1..][..i - 1];
    }
    if IsMiss(s, es[0], key, at) {
      assert IsMiss(Run(cfg, s, es[..0]), es[0], key, at);
    }
    if j :| 0 <= j < |es[1..]| && IsMiss(Run(cfg, s1, es[1..][..j]), es[1..][j], key, at) {
      assert IsMiss(Run(cfg, s, es[..j + 1]), es[j + 1], key, at);
    }
  }

  /** Nothing but the answer that there is no such name is put into the cache: what a
      lookup found, or why it failed, leaves the cache as it was. */
  lemma OnlyMissesAreCached(cfg: Settings, s: State, e: Event)
    requires cfg.Valid()
    ensures forall x :: x in Step(cfg, s, e).cache && x !in s.cache ==>
              e.Settle? && x.expiry == e.now + cfg.ttlMs && IsMiss(s, e, x.key, e.now)
    ensures e.Settle? && !e.answer.Missing? ==> Step(cfg, s, e).cache == s.cache
  {
    match e
    case Resolve(key, now) => WithoutFacts(s.cache, key);
    case Settle(id, answer, now) =>
      if id in s.lookups && answer.Missing? {
        KeptFacts(cfg, s.cache, s.lookups[id].key, now);
        hide Latest, Without, Purged, Within;
      }
    case Release(_) =>
  }

  /** A name is answered from the cache only if a lookup of it found nothing within the
      last lifetime. */
  lemma CachedNullIsRecent(cfg: Settings, es: seq<Event>, t: int, key: Text, now: int)
    requires cfg.Valid() && Clocked(es, t) && ClockAfter(es, t) <= now
    requires Resolved(Run(cfg, START, es), key, now).1 == CachedNull
    ensures exists at :: FoundNothing(cfg, START, es, key, at) && at <= now < at + cfg.ttlMs
  {
    StartInv(cfg, t);
    RunKeepsInv(cfg, START, t, es);
    var s := Run(cfg, START, es);
    var found := Find(s.cache, key).value;
    var at := found.expiry - cfg.ttlMs;
    var i :| 0 <= i < |s.cache| && s.cache[i] == found;
    assert NullAnswer(key, at) in s.nulls;
    var k :| 0 <= k < |s.nulls| && s.nulls[k] == NullAnswer(key, at);
    hide Run, FoundNothing, Inv;
    HistoryIsEvents(cfg, START, es, key, at);
    assert FoundNothing(cfg, START, es, key, at);
  }

  /** No two lookups of one name are ever under way together, and every caller that
      waits is told of the only one. */
  lemma OneLookupPerName(cfg: Settings, es: seq<Event>, t: int, key: Text, now: int)
    requires cfg.Valid() && Clocked(es, t) && ClockAfter(es, t) <= now
    ensures var s := Run(cfg, START, es);
            forall i, j :: i in s.lookups && j in s.lookups && s.lookups[i].key == s.lookups[j].key ==> i == j
    ensures var (s, outcome) := Resolved(Run(cfg, START, es), key, now);
            outcome.Waits? ==> outcome.id in s.lookups && s.lookups[outcome.id].key == key
  {
    StartInv(cfg, t);
    RunKeepsInv(cfg, START, t, es);
    ResolvedKeepsInv(cfg, Run(cfg, START, es), ClockAfter(es, t), key, now);
  }

  /** When adding a name drops an entry that has not expired, every entry kept
      expires no sooner. */
  lemma DropsSoonestToExpire(cfg: Settings, s: State, t: int, key: Text, now: int, gone: Entry, kept: Entry)
    requires cfg.Valid() && Inv(cfg, s, t) && t <= now
    requires gone in s.cache && gone.key != key && gone.expiry > now && gone !in Cached(cfg, s.cache, key, now)
    requires kept in Cached(cfg, s.cache, key, now)
    ensures gone.expiry <= kept.expiry
    ensures |Cached(cfg, s.cache, key, now)| == cfg.maxEntries
  {
    hide Purged, Without, Latest, ByExpiry, UniqueKeys, Backed, NotAfter, Shared, Within;
    var p := Purged(s.cache, now);
    PurgedFacts(s.cache, now);
    WithoutFacts(p, key);
    var w := Without(p, key);
    WithinTwice(w, p, s.cache);
    WithinOrdered(w, s.cache);
    var last := Entry(key, now + cfg.ttlMs);
    ExpiresInTime(cfg, s, t, gone);
    DroppedFromFront(w, cfg.maxEntries - 1, last, gone, kept);
  }

  lemma DroppedFromFront(w: seq<Entry>, count: nat, last: Entry, gone: Entry, kept: Entry)
    requires ByExpiry(w) && gone in w && gone.expiry <= last.expiry
    requires gone !in Latest(w, count) + [last] && kept in Latest(w, count) + [last]
    ensures gone.expiry <= kept.expiry && |Latest(w, count)| == count
  {
    var g :| 0 <= g < |w| && w[g] == gone;
    DroppedIsFirst(w, count, g);
    var r := Latest(w, count);
    if kept != last {
      var j :| 0 <= j < |r| && r[j] == kept;
      assert r[j] == w[|w| - count + j];
    }
  }

  lemma DroppedIsFirst(w: seq<Entry>, count: nat, g: nat)
    requires g < |w|
    ensures w[g] in Latest(w, count) || (|w| > count && g < |w| - count)
  {
    if |w| > count && g >= |w| - count {
      assert Latest(w, count)[g - (|w| - count)] == w[g];
    }
  }

  // --------------------------------------- a name stays cached for its lifetime

  /** How many lookups found nothing over a run, for other names or the same. */
  function NullsIn(cfg: Settings, s: State, es: seq<Event>): int
    requires cfg.Valid()
  {
    |Run(cfg, s, es).nulls| - |s.nulls|
  }

  /** The name has an entry good until `until` with at most `n` entries after it. */
  predicate Holds(cache: seq<Entry>, key: Text, until: int, n: int) {
    exists i :: 0 <= i < |cache| && cache[i].key == key && cache[i].expiry >= until && |cache| - 1 - i <= n
  }

  lemma {:induction false} WithoutHolds(cache: seq<Entry>, other: Text, key: Text, until: int, n: int)
    requires Holds(cache, key, until, n) && other != key
    ensures Holds(Without(cache, other), key, until, n)
    decreases |cache|
  {
    var i :| 0 <= i < |cache| && cache[i].key == key && cache[i].expiry >= until && |cache| - 1 - i <= n;
    var rest := cache[1..];
    if i == 0 {
      assert Without(cache, other)[0] == cache[0];
    } else {
      assert rest[i - 1] == cache[i];
      WithoutHolds(rest, other, key, until, n);
      HoldsBehind(cache[0], Without(rest, other), key, until, n);
    }
  }

  lemma HoldsBehind(e: Entry, rest: seq<Entry>, key: Text, until: int, n: int)
    requires Holds(rest, key, until, n)
    ensures Holds([e] + rest, key, until, n)
  {
    var i :| 0 <= i < |rest| && rest[i].key == key && rest[i].expiry >= until && |rest| - 1 - i <= n;
    assert ([e] + rest)[i + 1] == rest[i];
  }

  lemma {:induction false} PurgedHolds(cache: seq<Entry>, now: int, key: Text, until: int, n: int)
    requires Holds(cache, key, until, n) && now < until
    ensures Holds(Purged(cache, now), key, until, n)
    decreases |cache|
  {
    var i :| 0 <= i < |cache| && cache[i].key == key && cache[i].expiry >= until && |cache| - 1 - i <= n;
    var rest := cache[1..];
    if i == 0 {
      assert Purged(cache, now)[0] == cache[0];
    } else {
      assert rest[i - 1] == cache[i];
      PurgedHolds(rest, now, key, until, n);
      HoldsBehind(cache[0], Purged(rest, now), key, until, n);
    }
  }

  lemma LatestHolds(cache: seq<Entry>, count: nat, key: Text, until: int, n: int)
    requires Holds(cache, key, until, n) && n < count
    ensures Holds(Latest(cache, count), key, until, n)
  {
    var i :| 0 <= i < |cache| && cache[i].key == key && cache[i].expiry >= until && |cache| - 1 - i <= n;
    if |cache| > count {
      assert Latest(cache, count)[i - (|cache| - count)] == cache[i];
    }
  }

  lemma CachedHolds(cfg: Settings, cache: seq<Entry>, other: Text, now: int, key: Text, until: int, n: int)
    requires cfg.Valid() && Holds(cache, key, until, n) && now < until <= now + cfg.ttlMs && 0 <= n < cfg.maxEntries - 1
    ensures Holds(Cached(cfg, cache, other, now), key, until, n + 1)
  {
    var last := Entry(other, now + cfg.ttlMs);
    var kept := Kept(cfg, cache, other, now);
    if other == key {
      assert (kept + [last])[|kept|] == last;
    } else {
      PurgedHolds(cache, now, key, until, n);
      WithoutHolds(Purged(cache, now), other, key, until, n);
      LatestHolds(Without(Purged(cache, now), other), cfg.maxEntries - 1, key, until, n);
      var i :| 0 <= i < |kept| && kept[i].key == key && kept[i].expiry >= until && |kept| - 1 - i <= n;
      assert (kept + [last])[i] == kept[i];
    }
  }

  lemma ResolvedHolds(s: State, other: Text, now: int, key: Text, until: int, n: int)
    requires Holds(s.cache, key, until, n) && now < until && UniqueKeys(s.cache)
    ensures Holds(Resolved(s, other, now).0.cache, key, until, n)
    ensures other == key ==> Resolved(s, other, now).1 == CachedNull
  {
    var i :| 0 <= i < |s.cache| && s.cache[i].key == key && s.cache[i].expiry >= until && |s.cache| - 1 - i <= n;
    if other != key {
      WithoutHolds(s.cache, other, key, until, n);
    } else {
      var found := Find(s.cache, key).value;
      var j :| 0 <= j < |s.cache| && s.cache[j] == found;
      assert i == j;
    }
  }

  lemma {:induction false} RunHolds(cfg: Settings, s: State, t: int, es: seq<Event>, key: Text, until: int, n: nat)
    requires cfg.Valid() && Inv(cfg, s, t) && Clocked(es, t)
    requires Holds(s.cache, key, until, n) && until <= t + cfg.ttlMs
    requires ClockAfter(es, t) < until && n + NullsIn(cfg, s, es) <= cfg.maxEntries - 1
    ensures Holds(Run(cfg, s, es).cache, key, until, n + NullsIn(cfg, s, es))
    decreases |es|
  {
    if es != [] {
      var s1, t1 := Step(cfg, s, es[0]), After(es[0], t);
      StepKeepsInv(cfg, s, t, es[0]);
      ClockGrows(es[1..], t1);
      NullsGrow(cfg, s1, es[1..]);
      StepHolds(cfg, s, t, es[0], key, until, n);
      RunHolds(cfg, s1, t1, es[1..], key, until, n + |s1.nulls| - |s.nulls|);
    }
  }

  lemma StepHolds(cfg: Settings, s: State, t: int, e: Event, key: Text, until: int, n: nat)
    requires cfg.Valid() && UniqueKeys(s.cache) && t <= After(e, t) < until <= t + cfg.ttlMs
    requires Holds(s.cache, key, until, n)
    requires n + |Step(cfg, s, e).nulls| - |s.nulls| <= cfg.maxEntries - 1
    ensures |s.nulls| <= |Step(cfg, s, e).nulls|
    ensures Holds(Step(cfg, s, e).cache, key, until, n + |Step(cfg, s, e).nulls| - |s.nulls|)
  {
    match e
    case Resolve(other, now) => ResolvedHolds(s, other, now, key, until, n);
    case Release(id) =>
    case Settle(id, answer, now) =>
      if id in s.lookups && !s.lookups[id].settled && answer == Missing {
        CachedHolds(cfg, s.cache, s.lookups[id].key, now, key, until, n);
      }
  }

  lemma {:induction false} ClockGrows(es: seq<Event>, t: int)
    requires Clocked(es, t)
    ensures t <= ClockAfter(es, t)
    decreases |es|
  {
    if es != [] {
      ClockGrows(es[1..], After(es[0], t));
    }
  }

  lemma {:induction false} NullsGrow(cfg: Settings, s: State, es: seq<Event>)
    requires cfg.Valid()
    ensures NullsIn(cfg, s, es) >= 0
    decreases |es|
  {
    if es != [] {
      NullsGrow(cfg, Step(cfg, s, es[0]), es[1..]);
    }
  }

  /** How many lookups, of whatever names, found nothing over a run. */
  function MissesIn(cfg: Settings, s: State, es: seq<Event>): nat
    requires cfg.Valid()
    decreases |es|
  {
    if es == [] then 0
    else
      (if es[0].Settle? && es[0].id in s.lookups && IsMiss(s, es[0], s.lookups[es[0].id].key, es[0].now) then 1 else 0)
      + MissesIn(cfg, Step(cfg, s, es[0]), es[1..])
  }

  lemma {:induction false} MissesCount(cfg: Settings, s: State, es: seq<Event>)
    requires cfg.Valid()
    ensures NullsIn(cfg, s, es) == MissesIn(cfg, s, es)
    decreases |es|
  {
    hide Cached, Find, Without;
    if es != [] {
      MissesCount(cfg, Step(cfg, s, es[0]), es[1..]);
    }
  }

  /** A name that a lookup did not find is answered from the cache for its whole
      lifetime, unless as many lookups as the cache has room for have found nothing
      since. */
  lemma StaysCached(cfg: Settings, before: seq<Event>, t: int, id: nat, at: int, after: seq<Event>, now: int, key: Text)
    requires cfg.Valid() && Clocked(before, t) && ClockAfter(before, t) <= at && Clocked(after, at)
    requires IsMiss(Run(cfg, START, before), Settle(id, Missing, at), key, at)
    requires ClockAfter(after, at) <= now < at + cfg.ttlMs
    requires MissesIn(cfg, Step(cfg, Run(cfg, START, before), Settle(id, Missing, at)), after) < cfg.maxEntries
    ensures var s := Step(cfg, Run(cfg, START, before), Settle(id, Missing, at));
            Resolved(Run(cfg, s, after), key, now).1 == CachedNull
  {
    var s0 := Run(cfg, START, before);
    var s := Settled(cfg, s0, id, Missing, at);
    StartInv(cfg, t);
    RunKeepsInv(cfg, START, t, before);
    StepKeepsInv(cfg, s0, ClockAfter(before, t), Settle(id, Missing, at));
    JustCached(cfg, s0, id, at);
    MissesCount(cfg, s, after);
    hide Step, Settled, Inv, Holds, IsMiss;
    StillCached(cfg, s, at, after, now, key);
  }

  lemma JustCached(cfg: Settings, s: State, id: nat, at: int)
    requires cfg.Valid() && id in s.lookups
    ensures Holds(Settled(cfg, s, id, Missing, at).cache, s.lookups[id].key, at + cfg.ttlMs, 0)
  {
    var cache := Settled(cfg, s, id, Missing, at).cache;
    assert cache[|cache| - 1] == Entry(s.lookups[id].key, at + cfg.ttlMs);
  }

  lemma StillCached(cfg: Settings, s: State, at: int, after: seq<Event>, now: int, key: Text)
    requires cfg.Valid() && Inv(cfg, s, at) && Clocked(after, at) && Holds(s.cache, key, at + cfg.ttlMs, 0)
    requires ClockAfter(after, at) <= now < at + cfg.ttlMs && NullsIn(cfg, s, after) < cfg.maxEntries
    ensures Resolved(Run(cfg, s, after), key, now).1 == CachedNull
  {
    NullsGrow(cfg, s, after);
    RunHolds(cfg, s, at, after, key, at + cfg.ttlMs, 0);
    RunKeepsInv(cfg, s, at, after);
    var n := NullsIn(cfg, s, after);
    hide Run, Holds;
    ResolvedHolds(Run(cfg, s, after), key, now, key, at + cfg.ttlMs, n);
  }
}
