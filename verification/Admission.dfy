/**
 How many requests the limiter lets through. A request is counted by Redis, or
 by the process when Redis does not answer; Redis may have counted it all the
 same. The events of many requests interleave freely, so a trace is any
 sequence of counting events.
 */
module Admission {
  import opened Windows

  const MINUTE := 60

  /** A Redis counter lives two minutes from its last increment. */
  const EXPIRY := 120

  datatype Counter = Counter(count: nat, expiresAt: nat)

  type Counters = map<(nat, string), Counter>

  /**
   `RedisHit`: the clock was read at `asked`, which names the minute of the
   counter, and Redis executed the increment at `at`; unless `answered`, the
   process did not learn the count. `LocalHit`: counted in memory at `asked`.
   */
  datatype Event =
    | RedisHit(key: string, asked: nat, at: nat, answered: bool)
    | LocalHit(key: string, asked: nat)

  datatype Backends = Backends(redis: Counters, local: Local)

  function MinuteOf(event: Event): nat {
    event.asked / MINUTE
  }

  /** An increment starts afresh when the counter is missing or has expired, and renews the expiry. */
  function Incremented(counters: Counters, minute: nat, key: string, at: nat): Counter {
    if (minute, key) in counters && at < counters[(minute, key)].expiresAt
    then Counter(counters[(minute, key)].count + 1, at + EXPIRY)
    else Counter(1, at + EXPIRY)
  }

  function CallOf(event: Event): Call {
    Call(event.key, MinuteOf(event))
  }

  function AfterEvent(b: Backends, event: Event): Backends {
    match event
    case RedisHit(key, _, at, _) =>
      var minute := MinuteOf(event);
      b.(redis := b.redis[(minute, key) := Incremented(b.redis, minute, key, at)])
    case LocalHit(_, _) => b.(local := AfterCall(b.local, CallOf(event)))
  }

  function After(events: seq<Event>): Backends {
    if events == [] then Backends(map[], map[])
    else AfterEvent(After(events[..|events| - 1]), events[|events| - 1])
  }

  /** The count an event produces. */
  function CountAt(b: Backends, event: Event): nat {
    match event
    case RedisHit(key, _, at, _) => Incremented(b.redis, MinuteOf(event), key, at).count
    case LocalHit(_, _) => Answer(b.local, CallOf(event))
  }

  lemma AfterAppend(events: seq<Event>, event: Event)
    ensures After(events + [event]) == AfterEvent(After(events), event)
    ensures (events + [event])[..|events|] == events
  {
    assert (events + [event])[..|events|] == events;
  }

  /** The event lets its request through: a known count within the limit. */
  predicate Passes(b: Backends, event: Event, limit: nat) {
    (event.RedisHit? ==> event.answered) && CountAt(b, event) <= limit
  }

  /** How many requests of a kind a trace lets through. */
  ghost function Passed(events: seq<Event>, limit: nat, kind: Event -> bool): nat {
    if events == [] then 0
    else
      var front, last := events[..|events| - 1], events[|events| - 1];
      Passed(front, limit, kind) + (if kind(last) && Passes(After(front), last, limit) then 1 else 0)
  }

  /** The calls the local counter saw. */
  function LocalCalls(events: seq<Event>): seq<Call> {
    if events == [] then []
    else
      LocalCalls(events[..|events| - 1])
        + (if events[|events| - 1].LocalHit? then [CallOf(events[|events| - 1])] else [])
  }

  /**
   What is assumed of clocks: the local one does not come back to a minute
   after another, and Redis executes an increment after it was asked for and
   within a minute of the end of the minute that named it.
   */
  ghost predicate IsTimely(events: seq<Event>) {
    && NoWindowReturns(LocalCalls(events))
    && forall i :: 0 <= i < |events| && events[i].RedisHit? ==>
         events[i].asked <= events[i].at < 60 * (events[i].asked / 60) + 120
  }

  lemma TimelyFront(events: seq<Event>)
    requires events != [] && IsTimely(events)
    ensures IsTimely(events[..|events| - 1])
  {
    var front := events[..|events| - 1];
    var calls := LocalCalls(front);
    assert forall i :: 0 <= i < |calls| ==> LocalCalls(events)[i] == calls[i];
  }

  lemma {:induction false} LocalIsAfterCalls(events: seq<Event>)
    ensures After(events).local == AfterCalls(LocalCalls(events))
  {
    if events != [] {
      var front, last := events[..|events| - 1], events[|events| - 1];
      LocalIsAfterCalls(front);
      var calls := LocalCalls(front);
      if last.LocalHit? {
        assert (calls + [CallOf(last)])[..|calls|] == calls;
      } else {
        assert calls + [] == calls;
      }
    }
  }

  function RedisHits(events: seq<Event>, key: string, minute: nat): nat {
    if events == [] then 0
    else
      var last := events[|events| - 1];
      RedisHits(events[..|events| - 1], key, minute)
        + (if last.RedisHit? && last.key == key && MinuteOf(last) == minute then 1 else 0)
  }

  /**
   The two-minute expiry never drops a count inside its own minute: in a timely
   trace a counter holds every increment asked for in its minute, and outlives
   the last moment at which another could arrive.
   */
  lemma {:induction false} RedisCountsAll(events: seq<Event>, key: string, minute: nat)
    requires IsTimely(events)
    ensures RedisHits(events, key, minute) > 0 ==>
              && (minute, key) in After(events).redis
              && After(events).redis[(minute, key)].count == RedisHits(events, key, minute)
              && After(events).redis[(minute, key)].expiresAt >= 60 * minute + 120
    ensures RedisHits(events, key, minute) == 0 ==> (minute, key) !in After(events).redis
  {
    if events != [] {
      TimelyFront(events);
      RedisCountsAll(events[..|events| - 1], key, minute);
    }
  }

  lemma RedisAnswersHistory(events: seq<Event>, event: Event)
    requires IsTimely(events) && event.RedisHit?
    requires event.asked <= event.at < MINUTE * MinuteOf(event) + EXPIRY
    ensures CountAt(After(events), event) == RedisHits(events, event.key, MinuteOf(event)) + 1
  {
    RedisCountsAll(events, event.key, MinuteOf(event));
  }

  /** Of a key in a minute, by one backend. */
  ghost function ByRedis(key: string, minute: nat): Event -> bool {
    (event: Event) => event.RedisHit? && event.key == key && event.asked / 60 == minute
  }

  ghost function ByMemory(key: string, minute: nat): Event -> bool {
    (event: Event) => event.LocalHit? && event.key == key && event.asked / 60 == minute
  }

  ghost function ByEither(key: string, minute: nat): Event -> bool {
    (event: Event) => event.key == key && event.asked / 60 == minute
  }

  /** Redis alone passes no more than the limit, per key and minute. */
  lemma {:induction false} RedisPassesLimit(events: seq<Event>, limit: nat, key: string, minute: nat)
    requires IsTimely(events)
    ensures Passed(events, limit, ByRedis(key, minute)) <= RedisHits(events, key, minute)
    ensures Passed(events, limit, ByRedis(key, minute)) <= limit
  {
    if events != [] {
      var front, last := events[..|events| - 1], events[|events| - 1];
      TimelyFront(events);
      RedisPassesLimit(front, limit, key, minute);
      if ByRedis(key, minute)(last) {
        RedisAnswersHistory(front, last);
      }
    }
  }

  /** The local counter alone passes no more than the limit, per key and minute. */
  lemma {:induction false} MemoryPassesLimit(events: seq<Event>, limit: nat, key: string, minute: nat)
    requires IsTimely(events)
    ensures Passed(events, limit, ByMemory(key, minute)) <= CallsOf(LocalCalls(events), key, minute)
    ensures Passed(events, limit, ByMemory(key, minute)) <= limit
  {
    if events != [] {
      var front, last := events[..|events| - 1], events[|events| - 1];
      TimelyFront(events);
      MemoryPassesLimit(front, limit, key, minute);
      var calls := LocalCalls(front);
      if last.LocalHit? {
        CallsOfAppend(calls, CallOf(last), key, minute);
        if ByMemory(key, minute)(last) {
          LocalIsAfterCalls(front);
          AnswerIsHistory(calls, CallOf(last));
        }
      } else {
        assert LocalCalls(events) == calls;
      }
    }
  }

  /** Counting splits over two exclusive kinds, and grows with the kind. */
  lemma {:induction false} PassedSplits(events: seq<Event>, limit: nat,
                                        p: Event -> bool, q: Event -> bool, all: Event -> bool)
    requires forall event :: all(event) ==> p(event) || q(event)
    ensures Passed(events, limit, all) <= Passed(events, limit, p) + Passed(events, limit, q)
  {
    if events != [] {
      PassedSplits(events[..|events| - 1], limit, p, q, all);
    }
  }

  /** No request of a key is counted in memory in a minute. */
  ghost predicate MemoryIsIdle(events: seq<Event>, key: string, minute: nat) {
    forall i :: 0 <= i < |events| && ByEither(key, minute)(events[i]) ==> events[i].RedisHit?
  }

  /** Redis answers no request of a key in a minute, though it may execute their increments. */
  ghost predicate RedisIsSilent(events: seq<Event>, key: string, minute: nat) {
    forall i :: 0 <= i < |events| && ByEither(key, minute)(events[i]) && events[i].RedisHit? ==> !events[i].answered
  }

  /**
   The admission bound. For any pattern of Redis answers, losses and failures,
   at most twice the limit of requests per key and calendar minute are let
   through, and at most the limit if for that key and minute only one backend
   answers.
   */
  lemma AdmissionPerMinute(events: seq<Event>, limit: nat, key: string, minute: nat)
    requires IsTimely(events)
    ensures Passed(events, limit, ByEither(key, minute)) <= 2 * limit
    ensures MemoryIsIdle(events, key, minute) || RedisIsSilent(events, key, minute) ==>
              Passed(events, limit, ByEither(key, minute)) <= limit
  {
    RedisPassesLimit(events, limit, key, minute);
    MemoryPassesLimit(events, limit, key, minute);
    PassedSplits(events, limit, ByRedis(key, minute), ByMemory(key, minute), ByEither(key, minute));
    if MemoryIsIdle(events, key, minute) {
      PassedWithin(events, limit, ByEither(key, minute), ByRedis(key, minute));
    } else if RedisIsSilent(events, key, minute) {
      PassedWithin(events, limit, ByEither(key, minute), ByMemory(key, minute));
    }
  }

  /** An unanswered increment lets nobody through. */
  lemma {:induction false} PassedWithin(events: seq<Event>, limit: nat, p: Event -> bool, q: Event -> bool)
    requires forall i :: 0 <= i < |events| && p(events[i]) && (events[i].RedisHit? ==> events[i].answered) ==>
               q(events[i])
    ensures Passed(events, limit, p) <= Passed(events, limit, q)
  {
    if events != [] {
      PassedWithin(events[..|events| - 1], limit, p, q);
    }
  }

  ghost function InMinutes(key: string, first: nat, n: nat): Event -> bool {
    (event: Event) => event.key == key && first <= MinuteOf(event) < first + n
  }

  lemma {:induction false} AdmissionInMinutes(events: seq<Event>, limit: nat, key: string, first: nat, n: nat)
    requires IsTimely(events)
    ensures Passed(events, limit, InMinutes(key, first, n)) <= 2 * limit * n
  {
    if n == 0 {
      PassesNothing(events, limit, InMinutes(key, first, 0));
    } else {
      AdmissionInMinutes(events, limit, key, first, n - 1);
      AdmissionPerMinute(events, limit, key, first + n - 1);
      PassedSplits(events, limit, InMinutes(key, first, n - 1), ByEither(key, first + n - 1), InMinutes(key, first, n));
      OneMore(limit, n - 1);
    }
  }

  lemma OneMore(limit: nat, n: nat)
    ensures 2 * limit * n + 2 * limit == 2 * limit * (n + 1)
  {
  }

  lemma {:induction false} PassesNothing(events: seq<Event>, limit: nat, kind: Event -> bool)
    requires forall event :: !kind(event)
    ensures Passed(events, limit, kind) == 0
  {
    if events != [] {
      PassesNothing(events[..|events| - 1], limit, kind);
    }
  }

  /** Requests of a key counted in the half-open interval of k minutes from `start`. */
  ghost function InInterval(key: string, start: nat, k: nat): Event -> bool {
    (event: Event) => event.key == key && start <= event.asked < start + 60 * k
  }

  /** In any half-open interval of k minutes at most 2 * limit * (k + 1) requests of a key are let through. */
  lemma AdmissionPerInterval(events: seq<Event>, limit: nat, key: string, start: nat, k: nat)
    requires IsTimely(events)
    ensures Passed(events, limit, InInterval(key, start, k)) <= 2 * limit * (k + 1)
  {
    var first := start / MINUTE;
    AdmissionInMinutes(events, limit, key, first, k + 1);
    PassedWithin(events, limit, InInterval(key, start, k), InMinutes(key, first, k + 1));
  }

  // ----- What a request is counted as -----

  /** The earlier events of the last one's key and minute that its backend counted. */
  ghost function Earlier(events: seq<Event>): set<nat>
    requires events != []
  {
    var last := events[|events| - 1];
    set i | 0 <= i < |events| - 1 && events[i].RedisHit? == last.RedisHit?
            && events[i].key == last.key && events[i].asked / 60 == last.asked / 60
  }

  /** The events of a kind, by index. */
  ghost function Those(events: seq<Event>, kind: Event -> bool): set<nat> {
    set i | 0 <= i < |events| && kind(events[i])
  }

  lemma ThoseGrow(events: seq<Event>, kind: Event -> bool)
    requires events != []
    ensures var n := |events| - 1;
            |Those(events, kind)| == |Those(events[..n], kind)| + (if kind(events[n]) then 1 else 0)
  {
    var n := |events| - 1;
    assert Those(events, kind) == Those(events[..n], kind) + (if kind(events[n]) then {n} else {});
  }

  lemma {:induction false} RedisHitsByIndex(events: seq<Event>, key: string, minute: nat)
    ensures RedisHits(events, key, minute) == |Those(events, ByRedis(key, minute))|
  {
    if events != [] {
      RedisHitsByIndex(events[..|events| - 1], key, minute);
      ThoseGrow(events, ByRedis(key, minute));
    }
  }

  lemma {:induction false} LocalHitsByIndex(events: seq<Event>, key: string, minute: nat)
    ensures CallsOf(LocalCalls(events), key, minute) == |Those(events, ByMemory(key, minute))|
  {
    if events != [] {
      var front, last := events[..|events| - 1], events[|events| - 1];
      LocalHitsByIndex(front, key, minute);
      ThoseGrow(events, ByMemory(key, minute));
      if last.LocalHit? {
        CallsOfAppend(LocalCalls(front), CallOf(last), key, minute);
      } else {
        assert LocalCalls(events) == LocalCalls(front);
      }
    }
  }

  /** In a timely trace an event is counted one plus the earlier ones of its key and minute at its backend. */
  lemma LastIsCounted(events: seq<Event>)
    requires events != [] && IsTimely(events)
    ensures CountAt(After(events[..|events| - 1]), events[|events| - 1]) == 1 + |Earlier(events)|
  {
    var front, last := events[..|events| - 1], events[|events| - 1];
    TimelyFront(events);
    if last.RedisHit? {
      RedisAnswersHistory(front, last);
      RedisHitsByIndex(front, last.key, MinuteOf(last));
      assert Earlier(events) == Those(front, ByRedis(last.key, MinuteOf(last)));
    } else {
      LocalIsAfterCalls(front);
      AnswerIsHistory(LocalCalls(front), CallOf(last));
      LocalHitsByIndex(front, last.key, MinuteOf(last));
      assert Earlier(events) == Those(front, ByMemory(last.key, MinuteOf(last)));
    }
  }

  // ----- The bound is met -----

  /** `a` requests of one key in minute 0 that Redis answers, then `b` that it does not. */
  function Burst(key: string, a: nat, b: nat): seq<Event> {
    if b > 0 then Burst(key, a, b - 1) + [LocalHit(key, 0)]
    else if a > 0 then Burst(key, a - 1, 0) + [RedisHit(key, 0, 0, true)]
    else []
  }

  /** A trace of minute 0 with `a` Redis and `b` local counts of a key, all of them let through. */
  ghost predicate AllPass(events: seq<Event>, key: string, a: nat, b: nat, limit: nat) {
    && (forall c :: c in LocalCalls(events) ==> c == Call(key, 0))
    && IsTimely(events)
    && RedisHits(events, key, 0) == a && CallsOf(LocalCalls(events), key, 0) == b
    && Passed(events, limit, ByEither(key, 0)) == a + b
  }

  lemma OneWindow(calls: seq<Call>, key: string)
    requires forall c :: c in calls ==> c == Call(key, 0)
    ensures NoWindowReturns(calls)
  {
    assert forall i :: 0 <= i < |calls| ==> calls[i] in calls;
  }

  lemma LocalBurstGrows(front: seq<Event>, key: string)
    requires IsTimely(front) && forall c :: c in LocalCalls(front) ==> c == Call(key, 0)
    ensures var events := front + [LocalHit(key, 0)];
            && LocalCalls(events) == LocalCalls(front) + [Call(key, 0)]
            && (forall c :: c in LocalCalls(events) ==> c == Call(key, 0))
            && IsTimely(events)
  {
    var events := front + [LocalHit(key, 0)];
    assert events[..|front|] == front;
    assert LocalCalls(events) == LocalCalls(front) + [Call(key, 0)];
    OneWindow(LocalCalls(events), key);
  }

  lemma OneMoreLocal(front: seq<Event>, key: string, a: nat, b: nat, limit: nat)
    requires AllPass(front, key, a, b, limit) && b < limit
    ensures AllPass(front + [LocalHit(key, 0)], key, a, b + 1, limit)
  {
    var last, calls := LocalHit(key, 0), LocalCalls(front);
    LocalBurstGrows(front, key);
    assert (front + [last])[..|front|] == front;
    LocalIsAfterCalls(front);
    CallsOfAppend(calls, Call(key, 0), key, 0);
    OneWindow(calls + [Call(key, 0)], key);
    AnswerIsHistory(calls, Call(key, 0));
    assert Passes(After(front), last, limit);
  }

  lemma OneMoreRedis(front: seq<Event>, key: string, a: nat, limit: nat)
    requires AllPass(front, key, a, 0, limit) && a < limit
    ensures AllPass(front + [RedisHit(key, 0, 0, true)], key, a + 1, 0, limit)
  {
    var last, calls := RedisHit(key, 0, 0, true), LocalCalls(front);
    assert (front + [last])[..|front|] == front;
    assert LocalCalls(front + [last]) == calls + [] == calls;
    RedisAnswersHistory(front, last);
    assert Passes(After(front), last, limit);
  }

  lemma {:induction false} BurstPasses(key: string, a: nat, b: nat, limit: nat)
    requires a <= limit && b <= limit
    ensures AllPass(Burst(key, a, b), key, a, b, limit)
  {
    if b > 0 {
      BurstPasses(key, a, b - 1, limit);
      OneMoreLocal(Burst(key, a, b - 1), key, a, b - 1, limit);
    } else if a > 0 {
      BurstPasses(key, a - 1, 0, limit);
      OneMoreRedis(Burst(key, a - 1, 0), key, a - 1, limit);
    }
  }

  /** The bound cannot be lowered: Redis answering `limit` requests and then failing lets through twice the limit. */
  lemma AdmissionBoundIsMet(key: string, limit: nat)
    ensures var events := Burst(key, limit, limit);
            IsTimely(events) && Passed(events, limit, ByEither(key, 0)) == 2 * limit
  {
    BurstPasses(key, limit, limit, limit);
  }
}
