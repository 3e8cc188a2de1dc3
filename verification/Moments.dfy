/** The states a run goes through, and where in it a waiting request began. */
module Moments {
  import opened Status
  import opened Records
  import opened Tables
  import opened Protocol
  import opened Invariants

  /** The state after the first `k` steps of a run. */
  ghost function At(e: Entity, t0: Table, steps: seq<Step>, k: nat): State
    requires k <= |steps|
  {
    Run(e, Start(t0), steps[..k])
  }

  lemma AtNext(e: Entity, t0: Table, steps: seq<Step>, k: nat)
    requires k < |steps|
    ensures At(e, t0, steps, k + 1) == Next(e, At(e, t0, steps, k), steps[k])
  {
    assert steps[..k + 1][..k] == steps[..k];
  }

  /** What step `k` does: it makes its commit, or leaves table and log alone. */
  lemma AtEffect(e: Entity, t0: Table, steps: seq<Step>, k: nat)
    requires TableOk(e, t0) && k < |steps|
    ensures Inv(e, t0, At(e, t0, steps, k))
    ensures var s, s' := At(e, t0, steps, k), At(e, t0, steps, k + 1);
            var c := WrittenBy(e, s, steps[k]);
            if c.Some? then steps[k].Commit? && IsCommit(e, s, s', steps[k].token, c.value)
            else s'.table == s.table && s'.log == s.log
  {
    AtNext(e, t0, steps, k);
    RunKeepsInv(e, t0, steps[..k]);
    StepEffect(e, t0, At(e, t0, steps, k), steps[k]);
  }

  lemma {:induction false} RunSplits(e: Entity, s: State, steps: seq<Step>, k: nat)
    requires k <= |steps|
    ensures Run(e, s, steps) == Run(e, Run(e, s, steps[..k]), steps[k..])
    decreases |steps|
  {
    if k == |steps| {
      assert steps[..k] == steps;
    } else {
      var front := steps[..|steps| - 1];
      RunSplits(e, s, front, k);
      assert front[..k] == steps[..k];
      assert steps[k..][..|steps[k..]| - 1] == front[k..];
    }
  }

  /** From a moment of a run the rest of its steps lead to its end. */
  lemma RestOfRun(e: Entity, t0: Table, steps: seq<Step>, k: nat)
    requires TableOk(e, t0) && k <= |steps|
    ensures Inv(e, t0, At(e, t0, steps, k))
    ensures Run(e, At(e, t0, steps, k), steps[k..]) == Run(e, Start(t0), steps)
  {
    RunKeepsInv(e, t0, steps[..k]);
    RunSplits(e, Start(t0), steps, k);
  }

  /** The request waits at moment `k` with what it read. */
  ghost predicate IsWaiting(s: State, token: nat, pending: Pending) {
    pending.Writing? && token in s.pending && s.pending[token] == pending
  }

  lemma WaitingBegins(e: Entity, s: State, step: Step, token: nat, pending: Pending)
    requires IsWaiting(Next(e, s, step), token, pending) && !IsWaiting(s, token, pending)
    ensures step == Begin(token, pending.request)
    ensures pending.read == ReadFor(s.table, pending.request.op)
  {
  }

  /** A waiting request began earlier, reading what it holds. */
  lemma {:induction false} WaitingHasBegun(e: Entity, t0: Table, steps: seq<Step>, k: nat, token: nat, pending: Pending)
    returns (b: nat)
    requires k <= |steps| && IsWaiting(At(e, t0, steps, k), token, pending)
    ensures b < k
    ensures steps[b] == Begin(token, pending.request)
    ensures pending.read == ReadFor(At(e, t0, steps, b).table, pending.request.op)
  {
    assert k > 0 by {
      assert steps[..0] == [];
    }
    b := k - 1;
    AtNext(e, t0, steps, b);
    if IsWaiting(At(e, t0, steps, b), token, pending) {
      b := WaitingHasBegun(e, t0, steps, b, token, pending);
    } else {
      WaitingBegins(e, At(e, t0, steps, b), steps[b], token, pending);
    }
  }
}
