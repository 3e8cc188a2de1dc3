/**
 The rate limiting middleware: a Redis counter per minute and key, and behind
 it a mutable map of buckets for when Redis does not answer. `events` is the
 history of what was counted; the answers are those of the history's functions.
 */
module Limiter {
  import opened Outcomes
  import opened Windows
  import opened Admission

  /** What becomes of an increment sent to Redis: executed and answered, not executed, or executed but not answered. */
  datatype Fault = Fine | NotExecuted | AnswerLost

  /** The count the last event of a history produced. */
  ghost function LastCount(events: seq<Event>): nat
    requires events != []
  {
    CountAt(After(events[..|events| - 1]), events[|events| - 1])
  }

  lemma CountByHistory(events: seq<Event>)
    requires events != []
    ensures IsTimely(events) ==> LastCount(events) == 1 + |Earlier(events)|
  {
    if IsTimely(events) {
      LastIsCounted(events);
    }
  }

  class RedisServer {
    var counters: Counters

    constructor ()
      ensures counters == map[]
    {
      counters := map[];
    }

    /** Increments a counter and renews its expiry. */
    method Increment(minute: nat, key: string, at: nat) returns (count: nat)
      modifies this
      ensures counters == old(counters)[(minute, key) := Incremented(old(counters), minute, key, at)]
      ensures counters[(minute, key)] == Counter(count, at + 120)
      ensures count == if (minute, key) in old(counters) && at < old(counters)[(minute, key)].expiresAt
                       then old(counters)[(minute, key)].count + 1
                       else 1
    {
      var counter := Incremented(counters, minute, key, at);
      counters := counters[(minute, key) := counter];
      count := counter.count;
    }
  }

  class RateLimiter {
    const redis: RedisServer?
    const limit: nat
    var local: Local
    ghost var events: seq<Event>

    /** The counters are what the events made them. */
    ghost predicate Valid()
      reads this, redis
    {
      local == After(events).local && (redis != null ==> redis.counters == After(events).redis)
    }

    constructor (redis: RedisServer?, limit: nat)
      requires redis != null ==> redis.counters == map[]
      ensures Valid() && events == [] && this.redis == redis && this.limit == limit
    {
      this.redis, this.limit := redis, limit;
      local, events := map[], [];
    }

    /** Deletes the buckets of past windows one by one, once there are enough keys. */
    method CleanupLocal(window: nat)
      modifies `local
      ensures local == Cleaned(old(local), window)
    {
      if |local| < CLEANUP_SIZE {
        return;
      }
      var todo := local.Keys;
      while todo != {}
        invariant todo <= old(local).Keys && local.Keys <= old(local).Keys
        invariant forall key :: key in old(local) && key !in todo ==>
                    (key in local <==> !(old(local)[key].window < window))
        invariant todo <= local.Keys
        invariant forall key :: key in local ==> local[key] == old(local)[key]
        decreases todo
      {
        var key :| key in todo;
        if local[key].window < window {
          local := local - {key};
        }
        todo := todo - {key};
      }
    }

    /** Counts one call in memory; the lock makes it one step. */
    method IncrementLocal(key: string, asked: nat) returns (count: nat)
      requires Valid()
      modifies `local, `events
      ensures Valid()
      ensures local == AfterCall(old(local), Call(key, asked / 60))
      ensures events == old(events) + [LocalHit(key, asked)]
      ensures count == LastCount(events)
    {
      AfterAppend(events, LocalHit(key, asked));
      var window := asked / MINUTE;
      CleanupLocal(window);
      var value := if key in local then local[key] else Bucket(0, 0);
      if key !in local || value.window != window {
        value := Bucket(window, 0);
      }
      value := value.(count := value.count + 1);
      local := local[key := value];
      events := events + [LocalHit(key, asked)];
      count := value.count;
    }

    /** Counts one call in Redis, if there is one and it answers. */
    method Increment(key: string, asked: nat, at: nat, fault: Fault) returns (count: Option<nat>)
      requires Valid()
      modifies redis, `events
      ensures Valid()
      ensures redis == null || fault.NotExecuted? ==> count == None && events == old(events)
      ensures redis != null && fault.NotExecuted? ==> redis.counters == old(redis.counters)
      ensures redis != null && !fault.NotExecuted? ==>
                var minute, hit := asked / 60, RedisHit(key, asked, at, fault.Fine?);
                && events == old(events) + [hit]
                && redis.counters
                   == old(redis.counters)[(minute, key) := Incremented(old(redis.counters), minute, key, at)]
                && redis.counters[(minute, key)].expiresAt == at + 120
                && count == if fault.Fine? then Some(LastCount(events)) else None
    {
      if redis == null || fault.NotExecuted? {
        return None;
      }
      AfterAppend(events, RedisHit(key, asked, at, fault.Fine?));
      var n := redis.Increment(asked / MINUTE, key, at);
      events := events + [RedisHit(key, asked, at, fault.Fine?)];
      count := if fault.Fine? then Some(n) else None;
    }

    /** Counts one request in Redis or, when that fails, in memory; the last event is the one that counted it. */
    method Count(key: string, asked: nat, at: nat, fault: Fault, askedLocally: nat) returns (count: nat)
      requires Valid()
      modifies redis, `local, `events
      ensures Valid()
      ensures events == old(events) + (
                if redis == null || fault.NotExecuted? then [LocalHit(key, askedLocally)]
                else if fault.Fine? then [RedisHit(key, asked, at, true)]
                else [RedisHit(key, asked, at, false), LocalHit(key, askedLocally)])
      ensures count == LastCount(events)
      ensures IsTimely(events) ==> count == 1 + |Earlier(events)|
    {
      var answer := Increment(key, asked, at, fault);
      if answer.Some? {
        CountByHistory(events);
        return answer.value;
      }
      ghost var before := events;
      count := IncrementLocal(key, askedLocally);
      if before == old(events) {
        assert events == old(events) + [LocalHit(key, askedLocally)];
      } else {
        assert before == old(events) + [RedisHit(key, asked, at, false)];
        assert events == old(events) + [RedisHit(key, asked, at, false), LocalHit(key, askedLocally)];
      }
      CountByHistory(events);
    }

    /**
     One request: counted by Redis at `asked` (executed there at `at`), or, when
     that fails, in memory at `askedLocally`. It passes exactly when the event
     that counted it passes in the history: in a timely one, when with the earlier
     requests of its key and minute at that backend it is within the limit.
     */
    method Middleware(key: string, asked: nat, at: nat, fault: Fault, askedLocally: nat)
      returns (passed: bool, remaining: nat)
      requires Valid()
      modifies redis, `local, `events
      ensures Valid()
      ensures events == old(events) + (
                if redis == null || fault.NotExecuted? then [LocalHit(key, askedLocally)]
                else if fault.Fine? then [RedisHit(key, asked, at, true)]
                else [RedisHit(key, asked, at, false), LocalHit(key, askedLocally)])
      ensures passed <==> Passes(After(events[..|events| - 1]), events[|events| - 1], limit)
      ensures remaining == if LastCount(events) <= limit then limit - LastCount(events) else 0
      ensures IsTimely(events) ==>
                var n := 1 + |Earlier(events)|;
                (passed <==> n <= limit) && remaining == if n <= limit then limit - n else 0
    {
      var count := Count(key, asked, at, fault, askedLocally);
      remaining := if count <= limit then limit - count else 0;
      passed := count <= limit;
    }
  }

  /** Whatever Redis did, the requests of one key let through in one minute are at most twice the limit. */
  lemma LimiterIsBounded(limiter: RateLimiter, key: string, minute: nat)
    requires limiter.Valid() && IsTimely(limiter.events)
    ensures Passed(limiter.events, limiter.limit, ByEither(key, minute)) <= 2 * limiter.limit
    ensures limiter.local == AfterCalls(LocalCalls(limiter.events))
  {
    AdmissionPerMinute(limiter.events, limiter.limit, key, minute);
    LocalIsAfterCalls(limiter.events);
  }
}
