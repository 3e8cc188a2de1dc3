/**
 Two runs that show where the promises end: a client that guesses a version
 undoes a final decision, and a deletion overtakes a finalization. Each is given
 for every valid decision input.
 */
module Witnesses {
  import opened Outcomes
  import opened Status
  import opened Text
  import opened Records
  import opened Protocol
  import opened Discipline
  import SerialEquivalence
  import Services

  const EMPTY := Table(map[], [])

  function CreateBy(preparer: string, code: string, input: Fields): Request {
    Request(Create(code, input), preparer, Operator, "create")
  }

  function FinalizeBy(reviewer: string): Request {
    Request(Transition(1, 1, "urgent", "reviewed"), reviewer, Reviewer, "finalize")
  }

  /** Names version 2 before anyone has seen it. */
  function GuessingEdit(preparer: string, input: Fields): Request {
    Request(Edit(1, 2, input), preparer, Operator, "edit")
  }

  function DeleteByAdmin(): Request {
    Request(Delete(1), "admin", Admin, "delete")
  }

  /** A decision is created; `other` reads it; it is finalized; `other` writes. */
  function Overtaking(create: Request, other: Request, finalize: Request): seq<Step> {
    [Begin(1, create), Commit(1, 1, 0), Begin(2, other), Begin(3, finalize), Commit(3, 0, 1), Commit(2, 0, 2)]
  }

  /** The created decision's record. */
  function Drafted(preparer: string, code: string, input: Fields): Record {
    NewRecord(Priority, code, input, preparer).(id := 1)
  }

  function Created(preparer: string, code: string, input: Fields): State {
    DoCommit(Priority, DoBegin(Priority, Start(EMPTY), 1, CreateBy(preparer, code, input)), 1, 1, 0)
  }

  lemma UrgentIsNamed()
    ensures Named(Trim("urgent")) == Some(Urgent)
  {
    TrimmedIsFixed("urgent");
    NamedIffLabel("urgent", Urgent);
  }

  lemma CreatedIsDraft(preparer: string, code: string, input: Fields)
    requires HasBusinessFields(Priority, code, input)
    ensures var s := Created(preparer, code, input);
            && 1 in s.table.rows && s.table.rows[1] == Stored(Drafted(preparer, code, input), false, 0)
            && s.pending == map[1 := Auditing(0)]
            && (1, 1) in s.observed
            && (forall i :: 0 <= i < |s.table.revisions| ==> s.table.revisions[i].version == 1)
            && SerialEquivalence.LateDeletes(Priority, s.log) == {}
  {
    assert !IsRevisionTaken(EMPTY, 1, 1);
  }

  lemma FinalizeWrites(s: State, token: nat, draft: Record, reviewer: string, now: int)
    requires token in s.pending && s.pending[token] == Writing(FinalizeBy(reviewer), Some(draft))
    requires draft.status == Draft && draft.version == 1 && draft.id == 1 && draft.preparedBy != reviewer
    requires 1 in s.table.rows && s.table.rows[1].rec == draft && !s.table.rows[1].deleted
    requires forall i :: 0 <= i < |s.table.revisions| ==> s.table.revisions[i].version == 1
    ensures var s' := DoCommit(Priority, s, token, 0, now);
            && s'.pending == s.pending[token := Auditing(|s.log|)]
            && s'.table.rows == s.table.rows[1 := Stored(draft.(status := Urgent, version := 2), false, now)]
            && (forall i :: 0 <= i < |s'.table.revisions| ==> s'.table.revisions[i].version <= 2)
  {
    FinalizePlans(draft, reviewer);
    assert !IsRevisionTaken(s.table, 1, 2);
    assert Overwritten(draft, draft.(status := Urgent, version := 2)) == draft.(status := Urgent, version := 2);
  }

  lemma FinalizePlans(draft: Record, reviewer: string)
    requires draft.status == Draft && draft.preparedBy != reviewer
    ensures var plan := Plan(Priority, FinalizeBy(reviewer), Some(draft));
            && plan.Success? && plan.value.Replace? && plan.value.id == 1 && plan.value.expected == 1
            && plan.value.item == draft.(status := Urgent, version := 2)
  {
    UrgentIsNamed();
    DecisionEdges(Draft, Urgent);
    Services.TransitionIsPlanned(Priority, FinalizeBy(reviewer), draft, Urgent);
  }

  lemma EditPlans(preparer: string, code: string, input: Fields)
    requires HasBusinessFields(Priority, code, input)
    ensures Plan(Priority, GuessingEdit(preparer, input), Some(Drafted(preparer, code, input))).Success?
  {
    CanonicalIsFixed(code);
    TrimmedIsFixed(Canonical(code));
    assert |Canonical(code)| == |Trim(code)|;
  }

  /** The state in which the finalization has just been written, with `other` still to write. */
  function Finalized(preparer: string, code: string, input: Fields, other: Request, reviewer: string): State {
    var s := DoBegin(Priority, Created(preparer, code, input), 2, other);
    DoCommit(Priority, DoBegin(Priority, s, 3, FinalizeBy(reviewer)), 3, 0, 1)
  }

  lemma FinalizedIsUrgent(preparer: string, code: string, input: Fields, other: Request, reviewer: string)
    requires HasBusinessFields(Priority, code, input) && preparer != reviewer
    requires !other.op.Create? && other.op.id == 1
    requires Plan(Priority, other, Some(Drafted(preparer, code, input))).Success?
    ensures var s, draft := Finalized(preparer, code, input, other, reviewer), Drafted(preparer, code, input);
            && 2 in s.pending && s.pending[2] == Writing(other, Some(draft))
            && 1 in s.table.rows && s.table.rows[1] == Stored(draft.(status := Urgent, version := 2), false, 1)
            && (forall i :: 0 <= i < |s.table.revisions| ==> s.table.revisions[i].version <= 2)
  {
    CreatedIsDraft(preparer, code, input);
    var draft, s := Drafted(preparer, code, input), Created(preparer, code, input);
    var s2 := DoBegin(Priority, s, 2, other);
    assert s2.pending == s.pending[2 := Writing(other, Some(draft))];
    FinalizePlans(draft, reviewer);
    var s3 := DoBegin(Priority, s2, 3, FinalizeBy(reviewer));
    assert s3.pending == s2.pending[3 := Writing(FinalizeBy(reviewer), Some(draft))];
    FinalizeWrites(s3, 3, draft, reviewer, 1);
  }

  lemma GuessWrites(s: State, preparer: string, input: Fields, draft: Record)
    requires 2 in s.pending && s.pending[2] == Writing(GuessingEdit(preparer, input), Some(draft))
    requires Plan(Priority, GuessingEdit(preparer, input), Some(draft)).Success?
    requires 1 in s.table.rows && !s.table.rows[1].deleted && s.table.rows[1].rec.version == 2
    requires forall i :: 0 <= i < |s.table.revisions| ==> s.table.revisions[i].version <= 2
    ensures var t := DoCommit(Priority, s, 2, 0, 2).table;
            1 in t.rows && t.rows[1].rec.status == Draft && t.rows[1].rec.version == 3
  {
  }

  lemma DeleteWrites(s: State, draft: Record)
    requires 2 in s.pending && s.pending[2] == Writing(DeleteByAdmin(), Some(draft)) && draft.status == Draft
    requires 1 in s.table.rows && !s.table.rows[1].deleted
    ensures var t := DoCommit(Priority, s, 2, 0, 2).table;
            1 in t.rows && t.rows[1] == s.table.rows[1].(deleted := true)
  {
  }

  /** The states of the run after the creation, after the finalization and at its end. */
  lemma OvertakingRun(preparer: string, code: string, input: Fields, other: Request, reviewer: string)
    ensures var steps, s0 := Overtaking(CreateBy(preparer, code, input), other, FinalizeBy(reviewer)), Start(EMPTY);
            && Run(Priority, s0, steps[..2]) == Created(preparer, code, input)
            && Run(Priority, s0, steps[..3]) == DoBegin(Priority, Created(preparer, code, input), 2, other)
            && Run(Priority, s0, steps[..5]) == Finalized(preparer, code, input, other, reviewer)
            && Run(Priority, s0, steps)
               == DoCommit(Priority, Finalized(preparer, code, input, other, reviewer), 2, 0, 2)
  {
    var steps, s0 := Overtaking(CreateBy(preparer, code, input), other, FinalizeBy(reviewer)), Start(EMPTY);
    RunSnoc(Priority, s0, [], steps[0]);
    RunSnoc(Priority, s0, steps[..1], steps[1]);
    RunSnoc(Priority, s0, steps[..2], steps[2]);
    RunSnoc(Priority, s0, steps[..3], steps[3]);
    RunSnoc(Priority, s0, steps[..4], steps[4]);
    RunSnoc(Priority, s0, steps[..5], steps[5]);
    assert steps[..1] == [] + [steps[0]] && steps[..2] == steps[..1] + [steps[1]];
    assert steps[..3] == steps[..2] + [steps[2]] && steps[..4] == steps[..3] + [steps[3]];
    assert steps[..5] == steps[..4] + [steps[4]] && steps == steps[..5] + [steps[5]];
  }

  /**
   The discipline is needed. For every valid decision: an edit that reads the
   draft while naming the version it will only reach by being finalized is
   accepted after the finalization, and makes the final decision a draft again.
   */
  lemma GuessedVersionUndoesFinal(preparer: string, reviewer: string, code: string, input: Fields)
    requires HasBusinessFields(Priority, code, input) && preparer != reviewer
    ensures var other := GuessingEdit(preparer, input);
            var steps := Overtaking(CreateBy(preparer, code, input), other, FinalizeBy(reviewer));
            var before := Run(Priority, Start(EMPTY), steps[..5]).table;
            var after := Run(Priority, Start(EMPTY), steps).table;
            && 1 in before.rows && before.rows[1].rec.status == Urgent
            && 1 in after.rows && after.rows[1].rec.status == Draft && after.rows[1].rec.version == 3
  {
    var other, draft := GuessingEdit(preparer, input), Drafted(preparer, code, input);
    EditPlans(preparer, code, input);
    FinalizedIsUrgent(preparer, code, input, other, reviewer);
    GuessWrites(Finalized(preparer, code, input, other, reviewer), preparer, input, draft);
    OvertakingRun(preparer, code, input, other, reviewer);
  }

  lemma BeginKeepsObserved(e: Entity, s: State, token: nat, request: Request)
    ensures DoBegin(e, s, token, request).observed == s.observed
  {
  }

  lemma OthersNameNoVersion(s: State, preparer: string, reviewer: string, code: string, input: Fields, k: nat)
    requires k < 6
    ensures var steps := Overtaking(CreateBy(preparer, code, input), DeleteByAdmin(), FinalizeBy(reviewer));
            k != 3 ==> IsDisciplined(s, steps[k])
  {
  }

  lemma OvertakingDeleteIsDisciplined(preparer: string, reviewer: string, code: string, input: Fields)
    requires HasBusinessFields(Priority, code, input)
    ensures var steps := Overtaking(CreateBy(preparer, code, input), DeleteByAdmin(), FinalizeBy(reviewer));
            IsDisciplinedRun(Priority, Start(EMPTY), steps)
  {
    var steps := Overtaking(CreateBy(preparer, code, input), DeleteByAdmin(), FinalizeBy(reviewer));
    CreatedIsDraft(preparer, code, input);
    OvertakingRun(preparer, code, input, DeleteByAdmin(), reviewer);
    BeginKeepsObserved(Priority, Created(preparer, code, input), 2, DeleteByAdmin());
    assert IsDisciplined(Run(Priority, Start(EMPTY), steps[..3]), steps[3]);
    forall k | 0 <= k < 6 ensures IsDisciplined(Run(Priority, Start(EMPTY), steps[..k]), steps[k]) {
      OthersNameNoVersion(Run(Priority, Start(EMPTY), steps[..k]), preparer, reviewer, code, input, k);
    }
    DisciplinedStepByStep(Priority, Start(EMPTY), steps);
  }

  lemma {:induction false} DisciplinedStepByStep(e: Entity, s: State, steps: seq<Step>)
    requires forall k :: 0 <= k < |steps| ==> IsDisciplined(Run(e, s, steps[..k]), steps[k])
    ensures IsDisciplinedRun(e, s, steps)
  {
    if steps != [] {
      var front := steps[..|steps| - 1];
      forall k | 0 <= k < |front| ensures IsDisciplined(Run(e, s, front[..k]), front[k]) {
        assert front[..k] == steps[..k];
      }
      DisciplinedStepByStep(e, s, front);
    }
  }

  /**
   A deletion may reach a final decision, with disciplined clients too. For
   every valid decision: a deletion that read the draft still succeeds after
   the finalization, although run alone after it it is refused.
   */
  lemma DeletionOvertakesFinal(preparer: string, reviewer: string, code: string, input: Fields)
    requires HasBusinessFields(Priority, code, input) && preparer != reviewer
    ensures var steps := Overtaking(CreateBy(preparer, code, input), DeleteByAdmin(), FinalizeBy(reviewer));
            var before := Run(Priority, Start(EMPTY), steps[..5]).table;
            var after := Run(Priority, Start(EMPTY), steps).table;
            && IsDisciplinedRun(Priority, Start(EMPTY), steps)
            && 1 in after.rows && after.rows[1].rec.status == Urgent && after.rows[1].deleted
            && Execute(Priority, before, DeleteByAdmin(), 0, 2) == Failure(DecisionLocked)
  {
    var draft := Drafted(preparer, code, input);
    FinalizedIsUrgent(preparer, code, input, DeleteByAdmin(), reviewer);
    DeleteWrites(Finalized(preparer, code, input, DeleteByAdmin(), reviewer), draft);
    OvertakingRun(preparer, code, input, DeleteByAdmin(), reviewer);
    OvertakingDeleteIsDisciplined(preparer, reviewer, code, input);
  }
}
