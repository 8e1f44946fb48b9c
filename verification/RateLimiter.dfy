/**
 The in-memory sliding-window rate limiter of common/rate-limit.go: a class that keeps, per key, a queue of
 at most `maxRequestNum` acceptance times and a sweep that forgets keys, proved against a naive limiter that
 keeps every acceptance and counts the ones inside the window.
 */
module RateLimiter {

  type Key = string

  // The class

  class InMemoryRateLimiter {
    var store: map<Key, seq<int>>      // [old <-- new]
    const expirationDuration: int      // nanoseconds; the sweeper is started only if positive

    constructor (expirationDuration: int)
      ensures store == map[] && this.expirationDuration == expirationDuration
    {
      this.store := map[];
      this.expirationDuration := expirationDuration;
    }

    // `now` is the clock reading the call takes under the mutex.
    method Request(key: Key, maxRequestNum: nat, duration: int, now: int) returns (accepted: bool)
      requires QueuesNonempty(store)
      modifies this
      ensures QueuesNonempty(store)
      ensures accepted == Accepts(old(store), key, maxRequestNum, duration, now)
      ensures store == Requested(old(store), key, maxRequestNum, duration, now)
    {
      if key in store {
        var queue := store[key];
        if |queue| < maxRequestNum {
          store := store[key := queue + [now]];
          return true;
        } else {
          if now - queue[0] >= duration {
            queue := queue[1..];
            store := store[key := queue + [now]];
            return true;
          } else {
            return false;
          }
        }
      } else {
        store := store[key := []];
        store := store[key := store[key] + [now]];
      }
      return true;
    }

    // One round of clearExpiredItems, which deletes while it ranges over the keys.
    method Sweep(now: int)
      requires Sweeps(expirationDuration)
      modifies this
      ensures store == Swept(old(store), Seconds(expirationDuration), now)
      ensures QueuesNonempty(old(store)) ==> QueuesNonempty(store)
    {
      var pending := store.Keys;
      while pending != {}
        invariant pending <= store.Keys <= old(store).Keys
        invariant forall key :: key in store ==> store[key] == old(store)[key]
        invariant forall key :: key in old(store) && key !in pending ==>
                    (key in store <==> !Expired(old(store)[key], Seconds(expirationDuration), now))
        decreases pending
      {
        var key :| key in pending;
        var queue := store[key];
        var size := |queue|;
        if size == 0 || now - queue[size - 1] > Seconds(expirationDuration) {
          store := store - {key};
        }
        pending := pending - {key};
      }
    }
  }

  predicate Sweeps(expirationDuration: int) {
    expirationDuration > 0
  }

  // int64(d.Seconds()) of a positive duration.
  function Seconds(expirationDuration: int): int {
    expirationDuration / 1000000000
  }

  // What the class computes

  // The stored queues are never empty: an entry is created with one time and a full queue drops one for
  // one. (Request reads queue[0] of a full queue, also when the limit is zero.)
  predicate QueuesNonempty(store: map<Key, seq<int>>) {
    forall key :: key in store ==> store[key] != []
  }

  predicate Accepts(store: map<Key, seq<int>>, key: Key, maxRequestNum: nat, duration: int, now: int)
    requires QueuesNonempty(store)
  {
    key in store && |store[key]| >= maxRequestNum ==> now - store[key][0] >= duration
  }

  function Requested(store: map<Key, seq<int>>, key: Key, maxRequestNum: nat, duration: int, now: int)
    : (store': map<Key, seq<int>>)
    requires QueuesNonempty(store)
    ensures QueuesNonempty(store')
  {
    if !Accepts(store, key, maxRequestNum, duration, now) then store
    else
      var queue := if key in store then store[key] else [];
      store[key := (if queue != [] && |queue| >= maxRequestNum then queue[1..] else queue) + [now]]
  }

  predicate Expired(queue: seq<int>, expiration: int, now: int) {
    |queue| == 0 || now - queue[|queue| - 1] > expiration
  }

  function Swept(store: map<Key, seq<int>>, expiration: int, now: int): (store': map<Key, seq<int>>)
    ensures QueuesNonempty(store) ==> QueuesNonempty(store')
  {
    map key | key in store && !Expired(store[key], expiration, now) :: store[key]
  }

  // Runs and the naive limiter

  datatype Policy = Policy(maxRequestNum: nat, duration: int)

  datatype Event = Request(key: Key, now: int) | Sweep(now: int)

  // Each key is always used with the same policy.
  type Policies = Key -> Policy

  predicate ClockMonotone(events: seq<Event>) {
    forall i, j :: 0 <= i < j < |events| ==> events[i].now <= events[j].now
  }

  // The limiter's store after a run.
  function StoreAfter(policies: Policies, expiration: int, events: seq<Event>): (store: map<Key, seq<int>>)
    ensures QueuesNonempty(store)
  {
    if |events| == 0 then map[]
    else
      var store := StoreAfter(policies, expiration, events[..|events| - 1]);
      match events[|events| - 1]
      case Request(key, now) => Requested(store, key, policies(key).maxRequestNum, policies(key).duration, now)
      case Sweep(now) => Swept(store, expiration, now)
  }

  // How many of the times are less than `duration` old.
  function Recent(times: seq<int>, duration: int, now: int): nat {
    if |times| == 0 then 0
    else Recent(times[..|times| - 1], duration, now) + (if now - times[|times| - 1] < duration then 1 else 0)
  }

  predicate NaiveAccepts(log: seq<int>, policy: Policy, now: int) {
    Recent(log, policy.duration, now) < policy.maxRequestNum
  }

  // Everything the naive limiter ever accepted for `key`; it has no sweep.
  function NaiveLog(policies: Policies, events: seq<Event>, key: Key): seq<int> {
    if |events| == 0 then []
    else
      var log := NaiveLog(policies, events[..|events| - 1], key);
      match events[|events| - 1]
      case Request(k, now) => if k == key && NaiveAccepts(log, policies(key), now) then log + [now] else log
      case Sweep(_) => log
  }

  // Everything the real limiter ever accepted for `key`.
  function RealLog(policies: Policies, expiration: int, events: seq<Event>, key: Key): seq<int> {
    if |events| == 0 then []
    else
      var rest := events[..|events| - 1];
      var log := RealLog(policies, expiration, rest, key);
      match events[|events| - 1]
      case Request(k, now) =>
        if k == key && Accepts(StoreAfter(policies, expiration, rest), key, policies(key).maxRequestNum,
                               policies(key).duration, now)
        then log + [now] else log
      case Sweep(_) => log
  }

  // Refinement

  function Queue(store: map<Key, seq<int>>, key: Key): seq<int> {
    if key in store then store[key] else []
  }

  predicate Sorted(log: seq<int>) {
    forall i, j :: 0 <= i <= j < |log| ==> log[i] <= log[j]
  }

  // Any maxRequestNum + 1 consecutive acceptances span at least the duration.
  ghost predicate Spaced(log: seq<int>, policy: Policy) {
    forall i, j :: 0 <= i <= j < |log| && j == i + policy.maxRequestNum ==> log[j] - log[i] >= policy.duration
  }

  // The queue is the end of the log, and what it no longer holds has left the window.
  ghost predicate Represents(queue: seq<int>, log: seq<int>, policy: Policy, now: int) {
    && |queue| <= policy.maxRequestNum && |queue| <= |log| && queue == log[|log| - |queue|..]
    && (forall i :: 0 <= i < |log| - |queue| ==> now - log[i] >= policy.duration)
    && (forall i :: 0 <= i < |log| ==> log[i] <= now)
    && Sorted(log) && Spaced(log, policy)
  }

  lemma {:induction false} RecentSplit(a: seq<int>, b: seq<int>, duration: int, now: int)
    ensures Recent(a + b, duration, now) == Recent(a, duration, now) + Recent(b, duration, now)
  {
    if |b| == 0 {
      assert a + b == a;
    } else {
      assert (a + b)[..|a + b| - 1] == a + b[..|b| - 1];
      RecentSplit(a, b[..|b| - 1], duration, now);
    }
  }

  lemma {:induction false} RecentNone(times: seq<int>, duration: int, now: int)
    requires forall i :: 0 <= i < |times| ==> now - times[i] >= duration
    ensures Recent(times, duration, now) == 0
  {
    if |times| > 0 { RecentNone(times[..|times| - 1], duration, now); }
  }

  lemma {:induction false} RecentAll(times: seq<int>, duration: int, now: int)
    ensures Recent(times, duration, now) <= |times|
    ensures (forall i :: 0 <= i < |times| ==> now - times[i] < duration) ==> Recent(times, duration, now) == |times|
  {
    if |times| > 0 { RecentAll(times[..|times| - 1], duration, now); }
  }

  // In a sorted queue the oldest time decides whether all of them are recent.
  lemma OldestDecides(queue: seq<int>, duration: int, now: int)
    requires |queue| >= 1 && Sorted(queue)
    ensures Recent(queue, duration, now) < |queue| <==> now - queue[0] >= duration
  {
    if now - queue[0] >= duration {
      assert queue == queue[..1] + queue[1..];
      RecentSplit(queue[..1], queue[1..], duration, now);
      RecentAll(queue[1..], duration, now);
      RecentNone(queue[..1], duration, now);
    } else {
      RecentAll(queue, duration, now);
    }
  }

  lemma RecentOfLog(queue: seq<int>, log: seq<int>, policy: Policy, now: int)
    requires Represents(queue, log, policy, now)
    ensures Recent(log, policy.duration, now) == Recent(queue, policy.duration, now) <= |queue|
    ensures Sorted(queue)
  {
    var gone := log[..|log| - |queue|];
    assert log == gone + queue;
    RecentSplit(gone, queue, policy.duration, now);
    RecentNone(gone, policy.duration, now);
    RecentAll(queue, policy.duration, now);
  }

  lemma SameAnswer(store: map<Key, seq<int>>, key: Key, log: seq<int>, policy: Policy, now: int)
    requires QueuesNonempty(store) && policy.maxRequestNum >= 1
    requires Represents(Queue(store, key), log, policy, now)
    ensures Accepts(store, key, policy.maxRequestNum, policy.duration, now) <==> NaiveAccepts(log, policy, now)
  {
    var queue := Queue(store, key);
    RecentOfLog(queue, log, policy, now);
    if |queue| == policy.maxRequestNum {
      OldestDecides(queue, policy.duration, now);
    }
  }

  // The clock only moves on.
  lemma Later(queue: seq<int>, log: seq<int>, policy: Policy, now: int, later: int)
    requires Represents(queue, log, policy, now) && now <= later
    ensures Represents(queue, log, policy, later)
  {
  }

  lemma AcceptKeepsSpacing(queue: seq<int>, log: seq<int>, policy: Policy, now: int)
    requires policy.maxRequestNum >= 1 && Represents(queue, log, policy, now)
    requires |queue| < policy.maxRequestNum || now - queue[0] >= policy.duration
    ensures Sorted(log + [now]) && Spaced(log + [now], policy)
  {
    if |log| >= policy.maxRequestNum {
      var i := |log| - policy.maxRequestNum;
      assert now - log[i] >= policy.duration;
    }
  }

  lemma AcceptKeepsRepresentation(queue: seq<int>, log: seq<int>, policy: Policy, now: int)
    requires policy.maxRequestNum >= 1 && Represents(queue, log, policy, now)
    requires |queue| < policy.maxRequestNum || now - queue[0] >= policy.duration
    ensures Represents((if |queue| >= policy.maxRequestNum then queue[1..] else queue) + [now], log + [now], policy,
                       now)
  {
    AcceptKeepsSpacing(queue, log, policy, now);
    var queue' := (if |queue| >= policy.maxRequestNum then queue[1..] else queue) + [now];
    var log' := log + [now];
    assert queue' == log'[|log'| - |queue'|..];
  }

  lemma RequestKeepsRepresentation(store: map<Key, seq<int>>, key: Key, log: seq<int>, policy: Policy, now: int)
    requires QueuesNonempty(store) && policy.maxRequestNum >= 1
    requires Represents(Queue(store, key), log, policy, now)
    ensures var store' := Requested(store, key, policy.maxRequestNum, policy.duration, now);
      Represents(Queue(store', key), if NaiveAccepts(log, policy, now) then log + [now] else log, policy, now)
  {
    SameAnswer(store, key, log, policy, now);
    if NaiveAccepts(log, policy, now) {
      AcceptKeepsRepresentation(Queue(store, key), log, policy, now);
    }
  }

  lemma SweepKeepsRepresentation(store: map<Key, seq<int>>, key: Key, log: seq<int>, policy: Policy, expiration: int,
                                 now: int)
    requires policy.duration <= expiration + 1
    requires Represents(Queue(store, key), log, policy, now)
    ensures Represents(Queue(Swept(store, expiration, now), key), log, policy, now)
  {
  }

  // A policy the limiter honours: a positive limit and, if there is a sweeper, a duration that does not
  // outlast the second in which a sweep may forget a key.
  predicate Sound(policy: Policy, expiration: int, sweeping: bool) {
    policy.maxRequestNum >= 1 && (sweeping ==> policy.duration <= expiration + 1)
  }

  predicate HasSweep(events: seq<Event>) {
    exists i :: 0 <= i < |events| && events[i].Sweep?
  }

  lemma {:induction false} RunRepresents(policies: Policies, expiration: int, events: seq<Event>, key: Key, now: int)
    requires Sound(policies(key), expiration, HasSweep(events))
    requires ClockMonotone(events) && (|events| > 0 ==> events[|events| - 1].now <= now)
    ensures Represents(Queue(StoreAfter(policies, expiration, events), key), NaiveLog(policies, events, key),
                       policies(key), now)
  {
    if |events| > 0 {
      var rest := events[..|events| - 1];
      var event := events[|events| - 1];
      assert HasSweep(rest) ==> HasSweep(events) by {
        if i :| 0 <= i < |rest| && rest[i].Sweep? { assert events[i].Sweep?; }
      }
      RunRepresents(policies, expiration, rest, key, event.now);
      var store := StoreAfter(policies, expiration, rest);
      var log := NaiveLog(policies, rest, key);
      if event.Request? {
        if event.key == key {
          RequestKeepsRepresentation(store, key, log, policies(key), event.now);
        }
      } else {
        SweepKeepsRepresentation(store, key, log, policies(key), expiration, event.now);
      }
      Later(Queue(StoreAfter(policies, expiration, events), key), NaiveLog(policies, events, key), policies(key),
            event.now, now);
    }
  }

  // The answer to a request made after `events`.
  predicate RealAnswer(policies: Policies, expiration: int, events: seq<Event>, key: Key, now: int) {
    Accepts(StoreAfter(policies, expiration, events), key, policies(key).maxRequestNum, policies(key).duration, now)
  }

  predicate NaiveAnswer(policies: Policies, events: seq<Event>, key: Key, now: int) {
    NaiveAccepts(NaiveLog(policies, events, key), policies(key), now)
  }

  // Every answer is the naive limiter's, whatever the sweeps and the other keys do.
  lemma LimiterRefinesNaive(policies: Policies, expiration: int, events: seq<Event>, key: Key, now: int)
    requires Sound(policies(key), expiration, HasSweep(events))
    requires ClockMonotone(events) && (|events| > 0 ==> events[|events| - 1].now <= now)
    ensures RealAnswer(policies, expiration, events, key, now) <==> NaiveAnswer(policies, events, key, now)
  {
    RunRepresents(policies, expiration, events, key, now);
    SameAnswer(StoreAfter(policies, expiration, events), key, NaiveLog(policies, events, key), policies(key), now);
  }

  lemma {:induction false} SameLog(policies: Policies, expiration: int, events: seq<Event>, key: Key)
    requires Sound(policies(key), expiration, HasSweep(events)) && ClockMonotone(events)
    ensures RealLog(policies, expiration, events, key) == NaiveLog(policies, events, key)
  {
    if |events| > 0 {
      var rest := events[..|events| - 1];
      assert HasSweep(rest) ==> HasSweep(events) by {
        if i :| 0 <= i < |rest| && rest[i].Sweep? { assert events[i].Sweep?; }
      }
      SameLog(policies, expiration, rest, key);
      LimiterRefinesNaive(policies, expiration, rest, key, events[|events| - 1].now);
    }
  }

  // Safety

  function InWindow(log: seq<int>, start: int, duration: int): nat {
    if |log| == 0 then 0
    else InWindow(log[..|log| - 1], start, duration) + (if start <= log[|log| - 1] < start + duration then 1 else 0)
  }

  lemma {:induction false} WindowTail(log: seq<int>, k: nat, start: int, duration: int)
    requires k <= |log|
    requires forall i :: 0 <= i < |log| - k ==> log[i] < start
    ensures InWindow(log, start, duration) <= k
  {
    if |log| > 0 {
      WindowTail(log[..|log| - 1], if k > 0 then k - 1 else 0, start, duration);
    }
  }

  lemma {:induction false} WindowBound(log: seq<int>, policy: Policy, start: int)
    requires Sorted(log) && Spaced(log, policy)
    ensures InWindow(log, start, policy.duration) <= policy.maxRequestNum
  {
    if |log| > 0 {
      var last := |log| - 1;
      if start <= log[last] < start + policy.duration {
        var k := if policy.maxRequestNum < |log| then policy.maxRequestNum else |log|;
        forall i | 0 <= i < |log| - k
          ensures log[i] < start
        {
          assert log[last] - log[last - k] >= policy.duration && log[i] <= log[last - k];
        }
        WindowTail(log, k, start, policy.duration);
      } else {
        WindowBound(log[..last], policy, start);
      }
    }
  }

  // No half-open window of `duration` seconds holds more than maxRequestNum acceptances of a key.
  lemma NoWindowOverflows(policies: Policies, expiration: int, events: seq<Event>, key: Key, start: int)
    requires Sound(policies(key), expiration, HasSweep(events)) && ClockMonotone(events)
    ensures var log := RealLog(policies, expiration, events, key);
      InWindow(log, start, policies(key).duration) <= policies(key).maxRequestNum
  {
    SameLog(policies, expiration, events, key);
    RunRepresents(policies, expiration, events, key, if |events| > 0 then events[|events| - 1].now else 0);
    WindowBound(NaiveLog(policies, events, key), policies(key), start);
  }

  // The condition is exact

  // The clock does not go back, and nothing is swept without a sweeper.
  predicate LegalRun(events: seq<Event>, now: int, sweeping: bool) {
    && ClockMonotone(events) && (|events| > 0 ==> events[|events| - 1].now <= now)
    && (HasSweep(events) ==> sweeping)
  }

  ghost predicate AlwaysAgrees(policies: Policies, expiration: int, sweeping: bool) {
    forall events, key, now {:trigger RealAnswer(policies, expiration, events, key, now)} ::
      LegalRun(events, now, sweeping) ==>
        (RealAnswer(policies, expiration, events, key, now) <==> NaiveAnswer(policies, events, key, now))
  }

  // n requests for the same key in second 0.
  function Burst(key: Key, n: nat): (events: seq<Event>)
    ensures |events| == n && forall i :: 0 <= i < n ==> events[i] == Request(key, 0)
  {
    seq(n, _ => Request(key, 0))
  }

  function Zeros(n: nat): (times: seq<int>)
    ensures |times| == n && forall i :: 0 <= i < n ==> times[i] == 0
  {
    seq(n, _ => 0)
  }

  // One more request finds a queue and a log of zeros that are not full.
  lemma BurstStep(store: map<Key, seq<int>>, key: Key, policy: Policy, n: nat)
    requires QueuesNonempty(store) && Queue(store, key) == Zeros(n) && n < policy.maxRequestNum
    ensures Queue(Requested(store, key, policy.maxRequestNum, policy.duration, 0), key) == Zeros(n + 1)
    ensures NaiveAccepts(Zeros(n), policy, 0)
  {
    RecentAll(Zeros(n), policy.duration, 0);
    assert Zeros(n) + [0] == Zeros(n + 1);
  }

  lemma {:induction false} BurstIsAccepted(policies: Policies, expiration: int, key: Key, n: nat)
    requires n <= policies(key).maxRequestNum
    ensures Queue(StoreAfter(policies, expiration, Burst(key, n)), key) == Zeros(n)
    ensures NaiveLog(policies, Burst(key, n), key) == Zeros(n)
  {
    if n > 0 {
      var events := Burst(key, n);
      assert events[..n - 1] == Burst(key, n - 1) && events[n - 1] == Request(key, 0);
      BurstIsAccepted(policies, expiration, key, n - 1);
      BurstStep(StoreAfter(policies, expiration, Burst(key, n - 1)), key, policies(key), n - 1);
      assert Zeros(n - 1) + [0] == Zeros(n);
    }
  }

  // A sweep one second after the expiration forgets a burst.
  lemma SweptBurst(store: map<Key, seq<int>>, key: Key, n: nat, expiration: nat)
    requires n > 0 && Queue(store, key) == Zeros(n)
    ensures key !in Swept(store, expiration, expiration + 1)
  {
  }

  lemma ForgottenBurst(policies: Policies, expiration: nat, key: Key, n: nat)
    requires 0 < n == policies(key).maxRequestNum && policies(key).duration > expiration + 1
    ensures var events := Burst(key, n) + [Sweep(expiration + 1)];
      RealAnswer(policies, expiration, events, key, expiration + 1) &&
      !NaiveAnswer(policies, events, key, expiration + 1)
  {
    var burst, now := Burst(key, n), expiration + 1;
    var events := burst + [Sweep(now)];
    assert events[..|events| - 1] == burst && events[|events| - 1] == Sweep(now);
    BurstIsAccepted(policies, expiration, key, n);
    SweptBurst(StoreAfter(policies, expiration, burst), key, n, expiration);
    RecentAll(Zeros(n), policies(key).duration, now);
  }

  // A limit of zero lets the first request through; a longer duration lets a sweep forget a full window.
  lemma UnsoundPolicyDisagrees(policies: Policies, expiration: int, sweeping: bool, key: Key)
    returns (events: seq<Event>, now: int)
    requires !Sound(policies(key), expiration, sweeping) && (sweeping ==> expiration >= 0)
    ensures LegalRun(events, now, sweeping)
    ensures RealAnswer(policies, expiration, events, key, now) && !NaiveAnswer(policies, events, key, now)
  {
    var n := policies(key).maxRequestNum;
    if n == 0 {
      events, now := [], 0;
    } else {
      events, now := Burst(key, n) + [Sweep(expiration + 1)], expiration + 1;
      ForgottenBurst(policies, expiration, key, n);
    }
  }

  // With an expiration as it is configured, in nanoseconds: every answer is right exactly when every limit is
  // positive and, if the expiration is, every duration at most a second longer than it.
  lemma AgreesExactlyWhenSound(policies: Policies, expirationDuration: int)
    ensures AlwaysAgrees(policies, Seconds(expirationDuration), expirationDuration > 0) <==>
      forall key ::
        && policies(key).maxRequestNum >= 1
        && (expirationDuration > 0 ==> (policies(key).duration - 1) * 1000000000 <= expirationDuration)
  {
    var expiration, sweeping := Seconds(expirationDuration), Sweeps(expirationDuration);
    forall key ensures Sound(policies(key), expiration, sweeping) <==>
      && policies(key).maxRequestNum >= 1
      && (expirationDuration > 0 ==> (policies(key).duration - 1) * 1000000000 <= expirationDuration)
    {
      WithinSeconds(policies(key).duration, expirationDuration);
    }
    if forall key :: Sound(policies(key), expiration, sweeping) {
      forall events, key, now | LegalRun(events, now, sweeping)
        ensures RealAnswer(policies, expiration, events, key, now) <==> NaiveAnswer(policies, events, key, now)
      {
        LimiterRefinesNaive(policies, expiration, events, key, now);
      }
    } else {
      var key :| !Sound(policies(key), expiration, sweeping);
      var events, now := UnsoundPolicyDisagrees(policies, expiration, sweeping, key);
      assert RealAnswer(policies, expiration, events, key, now);
    }
  }

  lemma WithinSeconds(duration: int, expirationDuration: int)
    ensures duration <= Seconds(expirationDuration) + 1 <==> (duration - 1) * 1000000000 <= expirationDuration
  {
  }

  // A limit of 0 is one of 1

  function AtLeastOne(policies: Policies): Policies {
    (key: Key) => if policies(key).maxRequestNum == 0 then policies(key).(maxRequestNum := 1) else policies(key)
  }

  lemma ZeroRequest(store: map<Key, seq<int>>, key: Key, duration: int, now: int)
    requires QueuesNonempty(store) && |Queue(store, key)| <= 1
    ensures Accepts(store, key, 0, duration, now) <==> Accepts(store, key, 1, duration, now)
    ensures Requested(store, key, 0, duration, now) == Requested(store, key, 1, duration, now)
    ensures |Queue(Requested(store, key, 0, duration, now), key)| <= 1
  {
  }

  // In every run the limiter holds what it would with a limit of 1 in place of 0, so it answers alike.
  lemma {:induction false} ZeroActsAsOne(policies: Policies, expiration: int, events: seq<Event>, key: Key, now: int)
    ensures StoreAfter(policies, expiration, events) == StoreAfter(AtLeastOne(policies), expiration, events)
    ensures policies(key).maxRequestNum == 0 ==> |Queue(StoreAfter(policies, expiration, events), key)| <= 1
    ensures RealAnswer(policies, expiration, events, key, now) <==>
            RealAnswer(AtLeastOne(policies), expiration, events, key, now)
    decreases |events|
  {
    if |events| > 0 {
      var rest, event := events[..|events| - 1], events[|events| - 1];
      ZeroActsAsOne(policies, expiration, rest, key, event.now);
      if event.Request? {
        ZeroActsAsOne(policies, expiration, rest, event.key, event.now);
        if policies(event.key).maxRequestNum == 0 {
          ZeroRequest(StoreAfter(policies, expiration, rest), event.key, policies(event.key).duration, event.now);
        }
      }
    }
    if policies(key).maxRequestNum == 0 {
      ZeroRequest(StoreAfter(policies, expiration, events), key, policies(key).duration, now);
    }
  }
}
