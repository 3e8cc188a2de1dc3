/**
 Which decisions are deleted. A deletion compares no version: one that read a
 draft deletes a final decision exactly when a finalization is written between
 its read and its write. Requests run one at a time delete drafts only.
 */
module Deletions {
  import opened Outcomes
  import opened Status
  import opened Records
  import opened Tables
  import opened Protocol
  import opened Invariants
  import opened Moments
  import Discipline
  import Evolution
  import Decisions
  import Guesses
  import Audits

  // ----- What happens to one record at one step -----

  /** Step `k` commits an operation to the record. */
  ghost predicate WritesAt(t0: Table, steps: seq<Step>, k: nat, id: nat, op: Operation) {
    && k < |steps|
    && (var c := WrittenBy(Priority, At(Priority, t0, steps, k), steps[k]);
        c.Some? && c.value.id == id && c.value.request.op == op)
  }

  /** Step `k` commits a status change of the record to `final`. */
  ghost predicate IsFinalizedAt(t0: Table, steps: seq<Step>, k: nat, id: nat, final: Status) {
    && k < |steps|
    && (var c := WrittenBy(Priority, At(Priority, t0, steps, k), steps[k]);
        c.Some? && c.value.id == id && c.value.request.op.Transition? && c.value.after.status == final)
  }

  ghost function RowAt(t0: Table, steps: seq<Step>, k: nat, id: nat): Option<Record>
    requires k <= |steps|
  {
    RowOf(At(Priority, t0, steps, k).table, id)
  }

  lemma RowOnlyMoves(t0: Table, steps: seq<Step>, k: nat, id: nat)
    requires TableOk(Priority, t0) && k < |steps|
    ensures RowAt(t0, steps, k, id).Some? ==> RowAt(t0, steps, k + 1, id).Some?
    ensures IsDeleted(At(Priority, t0, steps, k).table, id) ==>
              IsDeleted(At(Priority, t0, steps, k + 1).table, id)
              && RowAt(t0, steps, k + 1, id) == RowAt(t0, steps, k, id)
  {
    AtEffect(Priority, t0, steps, k);
  }

  lemma DeletedByStep(t0: Table, steps: seq<Step>, k: nat, id: nat)
    requires TableOk(Priority, t0) && k < |steps|
    requires !IsDeleted(At(Priority, t0, steps, k).table, id) && IsDeleted(At(Priority, t0, steps, k + 1).table, id)
    ensures WritesAt(t0, steps, k, id, Delete(id)) && RowAt(t0, steps, k + 1, id) == RowAt(t0, steps, k, id)
  {
    AtEffect(Priority, t0, steps, k);
  }

  lemma DeletionMarks(t0: Table, steps: seq<Step>, k: nat, id: nat)
    requires TableOk(Priority, t0) && WritesAt(t0, steps, k, id, Delete(id))
    ensures IsDeleted(At(Priority, t0, steps, k + 1).table, id)
    ensures RowAt(t0, steps, k + 1, id) == RowAt(t0, steps, k, id) && RowAt(t0, steps, k, id).Some?
  {
    AtEffect(Priority, t0, steps, k);
  }

  lemma FinalIsWrittenByTransition(c: Entry)
    requires EntryOk(Priority, c) && IsFinal(c.after.status) && c.before != Some(c.after)
    ensures c.request.op.Transition?
  {
    if c.request.op.Edit? {
      Decisions.EditIsOfDraft(c);
    }
  }

  lemma FinalizedByStep(t0: Table, steps: seq<Step>, k: nat, id: nat)
    requires TableOk(Priority, t0) && k < |steps|
    requires RowAt(t0, steps, k, id).Some? && RowAt(t0, steps, k, id) != RowAt(t0, steps, k + 1, id)
    requires RowAt(t0, steps, k + 1, id).Some? && IsFinal(RowAt(t0, steps, k + 1, id).value.status)
    ensures IsFinalizedAt(t0, steps, k, id, RowAt(t0, steps, k + 1, id).value.status)
  {
    AtEffect(Priority, t0, steps, k);
    FinalIsWrittenByTransition(WrittenBy(Priority, At(Priority, t0, steps, k), steps[k]).value);
  }

  lemma FinalizationWrites(t0: Table, steps: seq<Step>, k: nat, id: nat, final: Status)
    requires TableOk(Priority, t0) && IsFinalizedAt(t0, steps, k, id, final)
    ensures RowAt(t0, steps, k + 1, id).Some? && RowAt(t0, steps, k + 1, id).value.status == final && IsFinal(final)
  {
    AtEffect(Priority, t0, steps, k);
    Decisions.TransitionIsOfDraft(WrittenBy(Priority, At(Priority, t0, steps, k), steps[k]).value);
  }

  // ----- What happens to it over a stretch of a run -----

  lemma {:induction false} RowStays(t0: Table, steps: seq<Step>, b: nat, k: nat, id: nat)
    requires TableOk(Priority, t0) && b <= k <= |steps| && RowAt(t0, steps, b, id).Some?
    ensures RowAt(t0, steps, k, id).Some?
    decreases k
  {
    if b < k {
      RowStays(t0, steps, b, k - 1, id);
      RowOnlyMoves(t0, steps, k - 1, id);
    }
  }

  /** A row deleted in the run was deleted by a deletion's commit, and is as that left it. */
  lemma {:induction false} DeletionHasCommit(t0: Table, steps: seq<Step>, k: nat, id: nat) returns (d: nat)
    requires TableOk(Priority, t0) && k <= |steps|
    requires !IsDeleted(t0, id) && IsDeleted(At(Priority, t0, steps, k).table, id)
    ensures d < k
    ensures WritesAt(t0, steps, d, id, Delete(id))
    ensures RowAt(t0, steps, d, id) == RowAt(t0, steps, k, id)
  {
    assert k > 0 by {
      assert steps[..0] == [];
    }
    d := k - 1;
    if IsDeleted(At(Priority, t0, steps, d).table, id) {
      RowOnlyMoves(t0, steps, d, id);
      d := DeletionHasCommit(t0, steps, d, id);
    } else {
      DeletedByStep(t0, steps, d, id);
    }
  }

  /** A decision that was a draft and is final was finalized in between. */
  lemma {:induction false} FinalHasCommit(t0: Table, steps: seq<Step>, b: nat, k: nat, id: nat, final: Status)
    returns (f: nat)
    requires TableOk(Priority, t0) && b <= k <= |steps| && IsFinal(final)
    requires RowAt(t0, steps, b, id).Some? && RowAt(t0, steps, b, id).value.status == Draft
    requires RowAt(t0, steps, k, id).Some? && RowAt(t0, steps, k, id).value.status == final
    ensures b <= f < k
    ensures IsFinalizedAt(t0, steps, f, id, final)
    decreases k
  {
    f := k - 1;
    RowStays(t0, steps, b, f, id);
    if RowAt(t0, steps, f, id) == RowAt(t0, steps, k, id) {
      f := FinalHasCommit(t0, steps, b, f, id, final);
    } else {
      FinalizedByStep(t0, steps, f, id);
    }
  }

  // ----- When a deletion removes a final decision -----

  /** A deletion that found the decision no longer a draft had read it before. */
  lemma LateDeletionReadTooEarly(c: Entry)
    requires EntryOk(Priority, c) && c.request.op.Delete?
    ensures c.read.Some? && c.read.value.status == Draft
    ensures c.before.value.status != Draft ==> c.read.value.version < c.before.value.version
  {
  }

  /** The request whose commit is step `d` began at step `b`, and read the decision as a draft. */
  ghost predicate BeganOnDraft(t0: Table, steps: seq<Step>, b: nat, d: nat, id: nat) {
    && b < d < |steps| && steps[b].Begin? && steps[d].Commit? && steps[b].token == steps[d].token
    && steps[b].request.op == Delete(id)
    && (var read := Find(At(Priority, t0, steps, b).table, id); read.Some? && read.value.status == Draft)
  }

  /** Every deletion that succeeds began earlier, on a draft. */
  lemma DeletionBegan(t0: Table, steps: seq<Step>, d: nat, id: nat) returns (b: nat)
    requires TableOk(Priority, t0) && WritesAt(t0, steps, d, id, Delete(id))
    ensures BeganOnDraft(t0, steps, b, d, id)
  {
    AtEffect(Priority, t0, steps, d);
    var s := At(Priority, t0, steps, d);
    var c := WrittenBy(Priority, s, steps[d]).value;
    b := WaitingHasBegun(Priority, t0, steps, d, steps[d].token, Writing(c.request, c.read));
    LateDeletionReadTooEarly(c);
  }

  /** A finalization of the decision is committed between steps `b` and `d`. */
  ghost predicate IsFinalizedBetween(t0: Table, steps: seq<Step>, b: nat, d: nat, id: nat) {
    exists f, final :: b < f < d && IsFinalizedAt(t0, steps, f, id, final)
  }

  /** The decision ends the run deleted and final. */
  ghost predicate EndsDeletedFinal(t0: Table, steps: seq<Step>, id: nat) {
    var t := Run(Priority, Start(t0), steps).table;
    IsDeleted(t, id) && IsFinal(t.rows[id].rec.status)
  }

  lemma DeletedStaysAsFound(t0: Table, steps: seq<Step>, d: nat, id: nat)
    requires TableOk(Priority, t0) && WritesAt(t0, steps, d, id, Delete(id))
    ensures var t := Run(Priority, Start(t0), steps).table;
            IsDeleted(t, id) && RowOf(t, id) == RowAt(t0, steps, d, id)
  {
    DeletionMarks(t0, steps, d, id);
    RestOfRun(Priority, t0, steps, d + 1);
    Evolution.RunMovesOn(Priority, t0, At(Priority, t0, steps, d + 1), steps[d + 1..], id);
  }

  /** A decision finalized in a run whose writes named the version they read has that status at its end. */
  lemma FinalizedStays(t0: Table, steps: seq<Step>, f: nat, id: nat, final: Status)
    requires TableOk(Priority, t0) && IsFinalizedAt(t0, steps, f, id, final)
    requires Discipline.NamedTheirVersions(Run(Priority, Start(t0), steps).log, 0)
    ensures var row := RowOf(Run(Priority, Start(t0), steps).table, id);
            row.Some? && row.value.status == final && IsFinal(final)
  {
    FinalizationWrites(t0, steps, f, id, final);
    RestOfRun(Priority, t0, steps, f + 1);
    Decisions.FinalIsForever(t0, At(Priority, t0, steps, f + 1), steps[f + 1..], id);
  }

  /**
   The exact condition. When the edits and status changes of a run named the
   version they read, a deletion that began at step `b` and is committed at step
   `d` removes a final decision if and only if a finalization is committed
   between the two. One direction needs nothing of the clients.
   */
  lemma DeletionRemovesFinalIff(t0: Table, steps: seq<Step>, b: nat, d: nat, id: nat)
    requires TableOk(Priority, t0) && WritesAt(t0, steps, d, id, Delete(id)) && BeganOnDraft(t0, steps, b, d, id)
    ensures EndsDeletedFinal(t0, steps, id) ==> IsFinalizedBetween(t0, steps, b, d, id)
    ensures Discipline.NamedTheirVersions(Run(Priority, Start(t0), steps).log, 0) ==>
              (EndsDeletedFinal(t0, steps, id) <==> IsFinalizedBetween(t0, steps, b, d, id))
  {
    DeletedStaysAsFound(t0, steps, d, id);
    if EndsDeletedFinal(t0, steps, id) {
      var final := RowAt(t0, steps, d, id).value.status;
      var f := FinalHasCommit(t0, steps, b, d, id, final);
      assert b < f < d && IsFinalizedAt(t0, steps, f, id, final);
    }
    if Discipline.NamedTheirVersions(Run(Priority, Start(t0), steps).log, 0)
       && IsFinalizedBetween(t0, steps, b, d, id) {
      var f, final :| b < f < d && IsFinalizedAt(t0, steps, f, id, final);
      FinalizedStays(t0, steps, f, id, final);
    }
  }

  /**
   In any run, with no assumption on clients, when a decision ends up deleted
   and final, its deletion had read it before the commit that finalized it and
   was committed after.
   */
  lemma DeletedFinalWasReadBefore(t0: Table, steps: seq<Step>, id: nat) returns (b: nat, f: nat, d: nat)
    requires TableOk(Priority, t0) && !IsDeleted(t0, id) && EndsDeletedFinal(t0, steps, id)
    ensures b < f < d < |steps|
    ensures BeganOnDraft(t0, steps, b, d, id)
    ensures IsFinalizedAt(t0, steps, f, id, Run(Priority, Start(t0), steps).table.rows[id].rec.status)
    ensures WritesAt(t0, steps, d, id, Delete(id))
  {
    assert steps[..|steps|] == steps;
    d := DeletionHasCommit(t0, steps, |steps|, id);
    b := DeletionBegan(t0, steps, d, id);
    f := FinalHasCommit(t0, steps, b, d, id, RowAt(t0, steps, d, id).value.status);
  }

  // ----- A waiting deletion may always come too late -----

  /** The request still waits and is about to delete a final decision. */
  ghost predicate DeletesFinal(s: State, token: nat, pending: Pending) {
    && IsWaiting(s, token, pending) && pending.request.op.Delete?
    && Commits(Priority, s, token, 0, 0)
    && pending.request.op.id in s.table.rows && IsFinal(s.table.rows[pending.request.op.id].rec.status)
  }

  /** A waiting deletion gets through exactly as long as the decision is live. */
  lemma DeletionCommitsIffLive(t0: Table, s: State, token: nat, pending: Pending)
    requires Inv(Priority, t0, s) && IsWaiting(s, token, pending) && pending.request.op.Delete?
    ensures Commits(Priority, s, token, 0, 0) <==> IsLive(s.table, pending.request.op.id)
  {
    assert WritingOk(Priority, s.table, pending.request, pending.read);
  }

  /** Some continuation by disciplined clients ends with the request about to delete a final decision. */
  ghost predicate MayDeleteFinal(s: State, token: nat, pending: Pending) {
    exists steps :: IsDisciplinedRun(Priority, s, steps) && DeletesFinal(Run(Priority, s, steps), token, pending)
  }

  lemma OthersMayFinalize(t0: Table, s: State, token: nat, pending: Pending) returns (steps: seq<Step>)
    requires Inv(Priority, t0, s) && IsWaiting(s, token, pending) && pending.request.op.Delete?
    requires Guesses.IsOpenDraft(s.table, pending.request.op.id)
    ensures IsDisciplinedRun(Priority, s, steps) && DeletesFinal(Run(Priority, s, steps), token, pending)
  {
    var id := pending.request.op.id;
    var req := Guesses.FinalizeByAnother(s.table.rows[id].rec);
    assert RowOk(Priority, id, s.table.rows[id].rec);
    var k := Guesses.AboveAll(s.pending.Keys);
    Guesses.AnotherMayFinalize(s.table, id);
    Guesses.WholeRuns(t0, s, k, req, Execute(Priority, s.table, req, 0, 0).value);
    steps := Guesses.Whole(k, req);
    DeletionCommitsIffLive(t0, Run(Priority, s, steps), token, pending);
  }

  /**
   From any reachable state, a waiting deletion may come to delete a final
   decision if and only if the decision is live: whether or not it is a draft
   now, disciplined clients can finalize it first.
   */
  lemma WaitingDeletionMayDeleteFinalIff(t0: Table, s: State, token: nat, pending: Pending)
    requires Inv(Priority, t0, s) && IsWaiting(s, token, pending) && pending.request.op.Delete?
    ensures MayDeleteFinal(s, token, pending) <==> IsLive(s.table, pending.request.op.id)
  {
    var id := pending.request.op.id;
    assert WritingOk(Priority, s.table, pending.request, pending.read) && RowOk(Priority, id, s.table.rows[id].rec);
    if MayDeleteFinal(s, token, pending) {
      var steps :| IsDisciplinedRun(Priority, s, steps) && DeletesFinal(Run(Priority, s, steps), token, pending);
      RunFromKeepsInv(Priority, t0, s, steps);
      DeletionCommitsIffLive(t0, Run(Priority, s, steps), token, pending);
      Evolution.RunMovesOn(Priority, t0, s, steps, id);
    }
    if IsLive(s.table, id) && s.table.rows[id].rec.status == Draft {
      var steps := OthersMayFinalize(t0, s, token, pending);
    } else if IsLive(s.table, id) {
      DeletionCommitsIffLive(t0, s, token, pending);
      assert IsDisciplinedRun(Priority, s, []) && Run(Priority, s, []) == s;
    }
  }

  // ----- Requests one at a time -----

  /** The last commit to a record deleted since the first table is its deletion. */
  lemma LastCommitDeletes(t0: Table, s: State, id: nat) returns (c: Entry)
    requires HistoryOk(t0, s, id) && !IsDeleted(t0, id) && IsDeleted(s.table, id)
    ensures c in s.log && c.request.op.Delete? && c.after == s.table.rows[id].rec
  {
    var history := HistoryOf(s.log, id);
    c := history[|history| - 1];
    HistoryOfMembers(s.log, id, c);
  }

  lemma DeletedAsRead(c: Entry)
    requires EntryOk(Priority, c) && c.request.op.Delete? && c.read == c.before
    ensures c.after.status == Draft
  {
  }

  /** When requests run one at a time, every decision deleted since the first table is a draft. */
  lemma OnlyDraftsAreDeletedAlone(t0: Table, jobs: seq<Audits.Job>, id: nat)
    requires TableOk(Priority, t0) && !IsDeleted(t0, id)
    requires IsDeleted(Run(Priority, Start(t0), Audits.OneAtATime(jobs)).table, id)
    ensures Run(Priority, Start(t0), Audits.OneAtATime(jobs)).table.rows[id].rec.status == Draft
  {
    Audits.OneAtATimeSettles(Priority, t0, jobs);
    var s := Run(Priority, Start(t0), Audits.OneAtATime(jobs));
    assert HistoryOk(t0, s, id);
    var c := LastCommitDeletes(t0, s, id);
    DeletedAsRead(c);
  }
}
