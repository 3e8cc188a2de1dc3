/**
 The limiter's in-memory counter as a function, against the history it stands
 for: exactly when an answer is one more than the number of earlier calls with
 the same key in the same window, and how much memory the counter takes.
 */
module Windows {

  /** A window is a calendar minute, named by its number. */
  datatype Bucket = Bucket(window: nat, count: nat)

  type Local = map<string, Bucket>

  datatype Call = Call(key: string, window: nat)

  /** Below this many keys nothing is evicted. */
  const CLEANUP_SIZE := 512

  /** Eviction drops the buckets of past windows, all at once. */
  function Cleaned(local: Local, window: nat): Local {
    if |local| < CLEANUP_SIZE then local
    else map key | key in local && !(local[key].window < window) :: local[key]
  }

  /** The bucket after one more call. */
  function Counted(local: Local, key: string, window: nat): Bucket {
    if key in local && local[key].window == window then Bucket(window, local[key].count + 1) else Bucket(window, 1)
  }

  function AfterCall(local: Local, c: Call): Local {
    var kept := Cleaned(local, c.window);
    kept[c.key := Counted(kept, c.key, c.window)]
  }

  /** What the call is answered. */
  function Answer(local: Local, c: Call): nat {
    Counted(Cleaned(local, c.window), c.key, c.window).count
  }

  function AfterCalls(calls: seq<Call>): Local {
    if calls == [] then map[] else AfterCall(AfterCalls(calls[..|calls| - 1]), calls[|calls| - 1])
  }

  /** The specification: how many calls there were with a key in a window. */
  function CallsOf(calls: seq<Call>, key: string, window: nat): nat {
    if calls == [] then 0
    else
      CallsOf(calls[..|calls| - 1], key, window)
        + (if calls[|calls| - 1] == Call(key, window) then 1 else 0)
  }

  function KeysIn(calls: seq<Call>, window: nat): set<string> {
    set i | 0 <= i < |calls| && calls[i].window == window :: calls[i].key
  }

  /** No window comes back after a different one. A clock that never goes back has this. */
  ghost predicate NoWindowReturns(calls: seq<Call>) {
    forall i, j, k :: 0 <= i < j < k < |calls| && calls[i].window == calls[k].window ==>
      calls[j].window == calls[i].window
  }

  ghost predicate NeverGoesBack(calls: seq<Call>) {
    forall i, j :: 0 <= i < j < |calls| ==> calls[i].window <= calls[j].window
  }

  lemma NeverBackNeverReturns(calls: seq<Call>)
    requires NeverGoesBack(calls)
    ensures NoWindowReturns(calls)
  {
  }

  /** The count a table still has of a key in a window. */
  function Remembered(local: Local, key: string, window: nat): nat {
    if key in local && local[key].window == window then local[key].count else 0
  }

  /**
   A call loses the count of `c`: it reuses the key's bucket for another
   window, or it evicts and its window is later.
   */
  predicate Forgets(local: Local, call: Call, c: Call) {
    || (call.key == c.key && call.window != c.window)
    || (|local| >= 512 && c.window < call.window)
  }

  /** Among `calls` none that comes after one like `c` loses the count of `c`. */
  ghost predicate KeepsCount(calls: seq<Call>, c: Call) {
    forall i, j :: 0 <= i < j < |calls| && calls[i] == c ==> !Forgets(AfterCalls(calls[..j]), calls[j], c)
  }

  lemma CallsOfAppend(calls: seq<Call>, c: Call, key: string, window: nat)
    ensures CallsOf(calls + [c], key, window) == CallsOf(calls, key, window) + (if c == Call(key, window) then 1 else 0)
  {
    assert (calls + [c])[..|calls|] == calls;
  }

  lemma {:induction false} CalledIff(calls: seq<Call>, c: Call)
    ensures CallsOf(calls, c.key, c.window) > 0 <==> c in calls
  {
    if calls != [] {
      CalledIff(calls[..|calls| - 1], c);
      assert calls == calls[..|calls| - 1] + [calls[|calls| - 1]];
    }
  }

  lemma CallRemembers(local: Local, call: Call, c: Call)
    ensures Remembered(AfterCall(local, call), c.key, c.window)
         == (if call == c then Remembered(local, c.key, c.window) + 1
             else if Forgets(local, call, c) then 0
             else Remembered(local, c.key, c.window))
  {
  }

  lemma KeepsCountAppend(front: seq<Call>, call: Call, c: Call)
    ensures KeepsCount(front + [call], c)
       <==> KeepsCount(front, c) && (c in front ==> !Forgets(AfterCalls(front), call, c))
  {
    var calls := front + [call];
    assert forall j :: 0 <= j < |front| ==> calls[..j] == front[..j];
    assert calls[..|front|] == front;
    if KeepsCount(calls, c) {
      forall i, j | 0 <= i < j < |front| && front[i] == c ensures !Forgets(AfterCalls(front[..j]), front[j], c) {
        assert calls[i] == c && calls[j] == front[j];
      }
      if c in front {
        var i :| 0 <= i < |front| && front[i] == c;
        assert calls[i] == c && calls[|front|] == call;
      }
    }
  }

  /** What is remembered is never too much, and it is all exactly when nothing was lost. */
  lemma {:induction false} RememberedIff(calls: seq<Call>, c: Call)
    ensures Remembered(AfterCalls(calls), c.key, c.window) <= CallsOf(calls, c.key, c.window)
    ensures Remembered(AfterCalls(calls), c.key, c.window) == CallsOf(calls, c.key, c.window) <==> KeepsCount(calls, c)
  {
    if calls != [] {
      var front, call := calls[..|calls| - 1], calls[|calls| - 1];
      assert calls == front + [call];
      RememberedIff(front, c);
      CallRemembers(AfterCalls(front), call, c);
      KeepsCountAppend(front, call, c);
      CalledIff(front, c);
    }
  }

  /**
   The local limiter against the history, for any calls, clocks and number of
   keys. A call is answered one plus the number of earlier calls with its key in
   its window if and only if, since the first of these, no call used the key in
   another window and no eviction was made on behalf of a later window; else it
   is answered less.
   */
  lemma AnswerIsHistoryIff(calls: seq<Call>, c: Call)
    ensures Answer(AfterCalls(calls), c) <= CallsOf(calls, c.key, c.window) + 1
    ensures Answer(AfterCalls(calls), c) == CallsOf(calls, c.key, c.window) + 1 <==> KeepsCount(calls, c)
  {
    RememberedIff(calls, c);
  }

  /**
   The local limiter refines a history count: when no window comes back after a
   different one, every call is answered one plus the number of earlier calls
   with its key in its window. Eviction loses no live count.
   */
  lemma AnswerIsHistory(calls: seq<Call>, c: Call)
    requires NoWindowReturns(calls + [c])
    ensures Answer(AfterCalls(calls), c) == CallsOf(calls, c.key, c.window) + 1
  {
    var all := calls + [c];
    forall i, j | 0 <= i < j < |calls| && calls[i] == c ensures !Forgets(AfterCalls(calls[..j]), calls[j], c) {
      assert all[i].window == all[|calls|].window && all[j] == calls[j];
    }
    AnswerIsHistoryIff(calls, c);
  }

  /** So it is with a clock that never goes back. */
  lemma ForwardClockAnswersHistory(calls: seq<Call>, c: Call)
    requires NeverGoesBack(calls + [c])
    ensures Answer(AfterCalls(calls), c) == CallsOf(calls, c.key, c.window) + 1
  {
    NeverBackNeverReturns(calls + [c]);
    AnswerIsHistory(calls, c);
  }

  /** Every call is answered from its history. */
  ghost predicate AllAnsweredFromHistory(calls: seq<Call>) {
    forall m :: 0 <= m < |calls| ==>
      Answer(AfterCalls(calls[..m]), calls[m]) == CallsOf(calls[..m], calls[m].key, calls[m].window) + 1
  }

  /** No key comes back to a window after it was used in another. */
  ghost predicate NoKeyReturns(calls: seq<Call>) {
    forall i, j, m :: 0 <= i < j < m < |calls| && calls[i] == calls[m] && calls[j].key == calls[m].key ==>
      calls[j] == calls[m]
  }

  function KeysOf(calls: seq<Call>): set<string> {
    set i | 0 <= i < |calls| :: calls[i].key
  }

  lemma SubsetIsSmaller(a: set<string>, b: set<string>)
    requires a <= b
    ensures |a| <= |b|
  {
    assert b == a + (b - a);
    assert |b| == |a| + |b - a|;
  }

  /** Every bucket comes from a call. */
  lemma {:induction false} BucketsAreOfCalls(calls: seq<Call>)
    ensures forall key :: key in AfterCalls(calls) ==> Call(key, AfterCalls(calls)[key].window) in calls
  {
    if calls != [] {
      BucketsAreOfCalls(calls[..|calls| - 1]);
      assert calls == calls[..|calls| - 1] + [calls[|calls| - 1]];
    }
  }

  lemma FewKeysFewBuckets(calls: seq<Call>, n: nat)
    requires n <= |calls|
    ensures |AfterCalls(calls[..n])| <= |KeysOf(calls)|
  {
    var local := AfterCalls(calls[..n]);
    BucketsAreOfCalls(calls[..n]);
    forall key | key in local.Keys ensures key in KeysOf(calls) {
      var i :| 0 <= i < n && calls[i] == Call(key, local[key].window);
      assert calls[i].key == key;
    }
    SubsetIsSmaller(local.Keys, KeysOf(calls));
    assert |local| == |local.Keys|;
  }

  /** The call at `m` finds its key in its window, and never elsewhere in between. */
  ghost predicate KeyStays(calls: seq<Call>, m: nat)
    requires m < |calls|
  {
    forall i, j :: 0 <= i < j < m && calls[i] == calls[m] && calls[j].key == calls[m].key ==> calls[j] == calls[m]
  }

  lemma FewKeysKeepIff(calls: seq<Call>, m: nat)
    requires |KeysOf(calls)| < 512 && m < |calls|
    ensures KeepsCount(calls[..m], calls[m]) <==> KeyStays(calls, m)
  {
    var before, c := calls[..m], calls[m];
    forall j | 0 <= j < m
      ensures Forgets(AfterCalls(before[..j]), before[j], c) <==> calls[j].key == c.key && calls[j] != c
    {
      assert before[..j] == calls[..j];
      FewKeysFewBuckets(calls, j);
    }
    if KeepsCount(before, c) {
      forall i, j | 0 <= i < j < m && calls[i] == c && calls[j].key == c.key ensures calls[j] == c {
        assert before[i] == c && !Forgets(AfterCalls(before[..j]), before[j], c);
      }
    }
  }

  /**
   Over a whole run with too few keys for eviction, whatever the clock does:
   every answer is right if and only if no key comes back to a window after it
   was used in another.
   */
  lemma AnswersAreHistoryIff(calls: seq<Call>)
    requires |KeysOf(calls)| < 512
    ensures AllAnsweredFromHistory(calls) <==> NoKeyReturns(calls)
  {
    forall m | 0 <= m < |calls|
      ensures Answer(AfterCalls(calls[..m]), calls[m]) == CallsOf(calls[..m], calls[m].key, calls[m].window) + 1
         <==> KeyStays(calls, m)
    {
      AnswerIsHistoryIff(calls[..m], calls[m]);
      FewKeysKeepIff(calls, m);
    }
    assert NoKeyReturns(calls) <==> forall m :: 0 <= m < |calls| ==> KeyStays(calls, m);
  }

  /** A clock that goes back and returns: the third call here is answered 1 though it is the second of its window. */
  lemma ReturningLosesCounts(key: string)
    ensures var calls := [Call(key, 1), Call(key, 0)];
            Answer(AfterCalls(calls), Call(key, 1)) == 1 && CallsOf(calls, key, 1) == 1
  {
    var a, b := Call(key, 1), Call(key, 0);
    assert [a, b] == [] + [a] + [b] && [a, b][..1] == [a] && [a][..0] == [];
    assert AfterCalls([a]) == map[key := Bucket(1, 1)];
    assert AfterCalls([a, b]) == AfterCall(AfterCalls([a]), b) == map[key := Bucket(0, 1)];
    CallsOfAppend([], a, key, 1);
    CallsOfAppend([a], b, key, 1);
    assert [] + [a] == [a] && [a] + [b] == [a, b];
  }

  // ----- Memory -----

  /** No call has a later window. */
  ghost predicate EndsBy(calls: seq<Call>, window: nat) {
    forall i :: 0 <= i < |calls| ==> calls[i].window <= window
  }

  /** The keys of the calls in a window or a later one. */
  function KeysFrom(calls: seq<Call>, window: nat): set<string> {
    set i | 0 <= i < |calls| && calls[i].window >= window :: calls[i].key
  }

  /**
   When eviction runs it leaves only buckets called for in the current window
   or a later one: in the current one, if none was later.
   */
  lemma CleanupLeavesCurrent(calls: seq<Call>, window: nat)
    requires |AfterCalls(calls)| >= 512
    ensures var local := AfterCalls(calls);
            && (forall key :: key in Cleaned(local, window) ==> local[key].window >= window)
            && Cleaned(local, window).Keys <= KeysFrom(calls, window)
            && (EndsBy(calls, window) ==> forall key :: key in Cleaned(local, window) ==> local[key].window == window)
  {
    var local := AfterCalls(calls);
    BucketsAreOfCalls(calls);
    forall key | key in Cleaned(local, window)
      ensures local[key].window >= window && key in KeysFrom(calls, window)
      ensures EndsBy(calls, window) ==> local[key].window == window
    {
      var i :| 0 <= i < |calls| && calls[i] == Call(key, local[key].window);
      assert calls[i].window >= window;
    }
  }

  lemma EvictedIsBounded(calls: seq<Call>, c: Call)
    requires |AfterCalls(calls)| >= 512
    ensures |AfterCall(AfterCalls(calls), c)| <= |KeysFrom(calls + [c], c.window)|
  {
    var all, after := calls + [c], AfterCall(AfterCalls(calls), c);
    CleanupLeavesCurrent(calls, c.window);
    forall key | key in after.Keys ensures key in KeysFrom(all, c.window) {
      if key == c.key {
        assert all[|calls|] == c;
      } else {
        assert key in Cleaned(AfterCalls(calls), c.window).Keys;
        var i :| 0 <= i < |calls| && calls[i].window >= c.window && calls[i].key == key;
        assert all[i] == calls[i];
      }
    }
    SubsetIsSmaller(after.Keys, KeysFrom(all, c.window));
    assert |after| == |after.Keys|;
  }

  lemma OneCallOneKey(local: Local, c: Call)
    requires |local| < 512
    ensures |AfterCall(local, c)| <= |local| + 1
  {
    var after := AfterCall(local, c);
    assert after.Keys == local.Keys + {c.key};
    assert |after| == |after.Keys| && |local| == |local.Keys|;
  }

  /**
   After every call at most 512 keys are tracked, or as many as were seen in
   its own window or a later one: in its own, if the clock had not been ahead.
   */
  lemma MemoryIsBounded(calls: seq<Call>, c: Call)
    ensures var all := calls + [c];
            && (|AfterCalls(all)| <= 512 || |AfterCalls(all)| <= |KeysFrom(all, c.window)|)
            && (EndsBy(calls, c.window) ==> KeysFrom(all, c.window) == KeysIn(all, c.window))
  {
    var all := calls + [c];
    assert all[..|calls|] == calls;
    if |AfterCalls(calls)| >= 512 {
      EvictedIsBounded(calls, c);
    } else {
      OneCallOneKey(AfterCalls(calls), c);
    }
    if EndsBy(calls, c.window) {
      assert forall i :: 0 <= i < |all| ==> (all[i].window >= c.window <==> all[i].window == c.window);
    }
  }
}
