/**
 Every request has its outcome at one point between its begin and its reply,
 those that fail included. Run alone on the table of that point, one that was
 refused is refused, and one that succeeded leaves the table it left, provided
 it named the version it read and deleted no decision late.
 */
module Linearization {
  import opened Outcomes
  import opened Status
  import opened Records
  import opened Tables
  import opened Protocol
  import opened Invariants
  import opened Discipline
  import opened Moments
  import SerialEquivalence

  /** The step refuses a request: its guards do when it begins, or the database does when it writes. */
  ghost predicate Refuses(e: Entity, s: State, step: Step, request: Request) {
    match step
    case Begin(token, req) =>
      req == request && token !in s.pending && Plan(e, req, ReadFor(s.table, req.op)).Failure?
    case Commit(token, newId, now) =>
      && token in s.pending && s.pending[token].Writing? && s.pending[token].request == request
      && IsFreshFor(s.table, request.op, newId) && !Commits(e, s, token, newId, now)
    case _ => false
  }

  /** Whatever id and time the database would give it, the request fails when run alone. */
  ghost predicate FailsAlone(e: Entity, t: Table, request: Request) {
    forall newId: nat, now: int :: IsFreshFor(t, request.op, newId) ==> Execute(e, t, request, newId, now).Failure?
  }

  lemma PutOfFreshVersionSucceeds(e: Entity, t: Table, id: nat, row: Stored, item: Record, reason: string, req: Request)
    requires TableOk(e, t)
    requires item.version == if id in t.rows then t.rows[id].rec.version + 1 else 1
    ensures PutWithRevision(e, t, id, row, item, reason, req).Success?
  {
    if e.Priority? {
      assert HasChain(t, id);
      RevisionIsFree(t, id, item.version);
    }
  }

  /** When the database refuses a write: the code is taken, or the row is not live at the version named. */
  predicate IsRefusable(t: Table, w: Write) {
    match w
    case Insert(item, _) => IsCodeTaken(t, item.code)
    case Replace(id, expected, _, _) => !IsLive(t, id) || t.rows[id].rec.version != expected
    case Remove(id) => !IsLive(t, id)
  }

  lemma ApplyFailsIff(e: Entity, t: Table, w: Write, req: Request, newId: nat, now: int)
    requires TableOk(e, t) && WriteOk(e, t, w, newId)
    ensures Apply(e, t, w, req, newId, now).Failure? <==> IsRefusable(t, w)
  {
    if !IsRefusable(t, w) {
      match w
      case Insert(item, reason) =>
        PutOfFreshVersionSucceeds(e, t, newId, Stored(item.(id := newId), false, now), item, reason, req);
      case Replace(id, expected, item, reason) =>
        var row := Stored(Overwritten(t.rows[id].rec, item), false, now);
        PutOfFreshVersionSucceeds(e, t, id, row, item, reason, req);
      case Remove(_) =>
    }
  }

  /** A write refused on what an earlier read planned is refused on what a read now would plan. */
  lemma RefusableFailsAlone(e: Entity, t: Table, req: Request, read: Option<Record>)
    requires Plan(e, req, read).Success? && (req.op.Create? <==> read.None?)
    requires IsRefusable(t, Plan(e, req, read).value)
    ensures FailsAlone(e, t, req)
  {
    if !req.op.Create? && IsLive(t, req.op.id) && Plan(e, req, Find(t, req.op.id)).Success? {
      assert IsRefusable(t, Plan(e, req, Find(t, req.op.id)).value);
    }
  }

  lemma RefusedFailsAlone(e: Entity, t0: Table, s: State, step: Step, request: Request)
    requires Inv(e, t0, s) && Refuses(e, s, step, request)
    ensures FailsAlone(e, s.table, request)
    ensures Next(e, s, step).table == s.table && Next(e, s, step).log == s.log
  {
    if step.Commit? {
      var read := s.pending[step.token].read;
      assert WritingOk(e, s.table, request, read);
      PlanIsWriteOk(e, s.table, request, read, step.newId);
      ApplyFailsIff(e, s.table, Plan(e, request, read).value, request, step.newId, step.now);
      RefusableFailsAlone(e, s.table, request, read);
    }
  }

  /** The request began at step `b`, which step `k` is or follows with the same token. */
  ghost predicate BeganAt(steps: seq<Step>, b: nat, k: nat, request: Request) {
    && b <= k < |steps| && (steps[k].Begin? || steps[k].Commit?)
    && steps[b] == Begin(steps[k].token, request)
  }

  lemma CommitBegan(e: Entity, t0: Table, steps: seq<Step>, k: nat) returns (b: nat)
    requires k < |steps| && steps[k].Commit?
    requires var s := At(e, t0, steps, k); steps[k].token in s.pending && s.pending[steps[k].token].Writing?
    ensures BeganAt(steps, b, k, At(e, t0, steps, k).pending[steps[k].token].request)
  {
    b := WaitingHasBegun(e, t0, steps, k, steps[k].token, At(e, t0, steps, k).pending[steps[k].token]);
  }

  /**
   Failed requests, with no assumption on clients. A request refused in a run,
   when it began or when it wrote, would at that point also fail alone, and it
   changes nothing.
   */
  lemma FailureHasItsPoint(e: Entity, t0: Table, steps: seq<Step>, k: nat, request: Request) returns (b: nat)
    requires TableOk(e, t0) && k < |steps| && Refuses(e, At(e, t0, steps, k), steps[k], request)
    ensures BeganAt(steps, b, k, request)
    ensures FailsAlone(e, At(e, t0, steps, k).table, request)
    ensures At(e, t0, steps, k + 1).table == At(e, t0, steps, k).table
    ensures At(e, t0, steps, k + 1).log == At(e, t0, steps, k).log
  {
    AtNext(e, t0, steps, k);
    RunKeepsInv(e, t0, steps[..k]);
    RefusedFailsAlone(e, t0, At(e, t0, steps, k), steps[k], request);
    b := k;
    if steps[k].Commit? {
      b := CommitBegan(e, t0, steps, k);
    }
  }

  lemma ReviveNone(t: Table)
    ensures SerialEquivalence.Revive(t, {}) == t
  {
    assert SerialEquivalence.Revive(t, {}).rows == t.rows;
  }

  lemma CommitRunsAloneIff(e: Entity, t0: Table, s: State, step: Step)
    requires Inv(e, t0, s) && WrittenBy(e, s, step).Some? && NamedItsVersion(WrittenBy(e, s, step).value)
    ensures var c := WrittenBy(e, s, step).value;
            Execute(e, s.table, c.request, c.id, c.now) == Success(Next(e, s, step).table)
            <==> !SerialEquivalence.IsLate(e, c)
  {
    var c, s' := WrittenBy(e, s, step).value, Next(e, s, step);
    StepEffect(e, t0, s, step);
    NamedIsSaw(e, c);
    SerialEquivalence.CommitIsApplied(e, s, step.token, step.newId, step.now);
    ReviveNone(s.table);
    ReviveNone(s'.table);
    if SerialEquivalence.IsLate(e, c) {
      SerialEquivalence.DeleteOnlyMarks(e, s.table, s'.table, c, step.newId);
      SerialEquivalence.LateDeleteIsRefusedAlone(e, s.table, {}, c, s'.table);
    } else {
      SerialEquivalence.TimelyCommitRunsAlone(e, s.table, {}, c, step.newId, s'.table);
    }
  }

  /**
   Successful requests. One that named the version it read, run alone at the
   point of its commit, leaves just the table it left, if and only if it did not
   delete a decision late.
   */
  lemma SuccessHasItsPointIff(e: Entity, t0: Table, steps: seq<Step>, k: nat) returns (b: nat)
    requires TableOk(e, t0) && k < |steps| && WrittenBy(e, At(e, t0, steps, k), steps[k]).Some?
    requires NamedItsVersion(WrittenBy(e, At(e, t0, steps, k), steps[k]).value)
    ensures var c := WrittenBy(e, At(e, t0, steps, k), steps[k]).value;
            && BeganAt(steps, b, k, c.request)
            && (Execute(e, At(e, t0, steps, k).table, c.request, c.id, c.now) == Success(At(e, t0, steps, k + 1).table)
                <==> !SerialEquivalence.IsLate(e, c))
  {
    AtNext(e, t0, steps, k);
    RunKeepsInv(e, t0, steps[..k]);
    StepEffect(e, t0, At(e, t0, steps, k), steps[k]);
    CommitRunsAloneIff(e, t0, At(e, t0, steps, k), steps[k]);
    b := CommitBegan(e, t0, steps, k);
  }
}
