/**
 What naming an unseen version can do to a final decision. A request that began
 with a version newer than the one it read can still come to overwrite a final
 decision, even if everybody else is disciplined; one that did not never can.
 */
module Guesses {
  import opened Outcomes
  import opened Status
  import Text
  import opened Records
  import Tables
  import opened Protocol
  import opened Invariants
  import opened Discipline
  import Decisions
  import Services
  import Witnesses

  /** A request with its own look at the record, all at once. */
  function Whole(k: nat, req: Request): seq<Step>
    requires IsVersioned(req.op)
  {
    [Look(req.op.id), Begin(k, req), Commit(k, 0, 0), Audit(k)]
  }

  /** `s'` is `s` but for what a request with token `k` is doing. */
  ghost predicate IsBusy(s: State, s': State, k: nat, pending: Pending) {
    s'.pending == s.pending[k := pending]
  }

  lemma BeginsWhole(s: State, k: nat, req: Request)
    requires k !in s.pending && IsVersioned(req.op) && Plan(Priority, req, Find(s.table, req.op.id)).Success?
    ensures var s' := Next(Priority, Next(Priority, s, Look(req.op.id)), Begin(k, req));
            IsBusy(s, s', k, Writing(req, Find(s.table, req.op.id))) && s'.table == s.table && s'.log == s.log
  {
  }

  lemma CommitSucceedsWhole(s: State, begun: State, k: nat, req: Request, t': Table)
    requires IsVersioned(req.op) && Execute(Priority, s.table, req, 0, 0) == Success(t')
    requires IsBusy(s, begun, k, Writing(req, Find(s.table, req.op.id))) && begun.table == s.table
    ensures Commits(Priority, begun, k, 0, 0)
    ensures DoCommit(Priority, begun, k, 0, 0).table == t'
  {
    var read := Find(s.table, req.op.id);
    assert begun.pending[k] == Writing(req, read) && ReadFor(s.table, req.op) == read;
    assert Apply(Priority, begun.table, Plan(Priority, req, read).value, req, 0, 0) == Success(t');
  }

  /** A successful commit leaves its token to the audit entry and adds one log entry. */
  lemma CommitAdvances(s: State, k: nat)
    requires Commits(Priority, s, k, 0, 0)
    ensures var s' := DoCommit(Priority, s, k, 0, 0);
            s'.pending == s.pending[k := Auditing(|s.log|)] && |s'.log| == |s.log| + 1
  {
  }

  lemma OnceBusy(s: State, begun: State, k: nat, pending: Pending, next: Pending)
    requires IsBusy(s, begun, k, pending)
    ensures begun.pending[k := next] == s.pending[k := next]
  {
  }

  lemma CommitsWhole(s: State, begun: State, k: nat, req: Request, t': Table)
    requires IsVersioned(req.op) && Execute(Priority, s.table, req, 0, 0) == Success(t')
    requires IsBusy(s, begun, k, Writing(req, Find(s.table, req.op.id))) && begun.table == s.table && begun.log == s.log
    ensures var s' := DoCommit(Priority, begun, k, 0, 0);
            IsBusy(s, s', k, Auditing(|s.log|)) && s'.table == t' && |s'.log| == |s.log| + 1
  {
    CommitSucceedsWhole(s, begun, k, req, t');
    CommitAdvances(begun, k);
    OnceBusy(s, begun, k, Writing(req, Find(s.table, req.op.id)), Auditing(|s.log|));
  }

  lemma AuditsWhole(s: State, written: State, k: nat)
    requires k !in s.pending && IsBusy(s, written, k, Auditing(|s.log|)) && |written.log| == |s.log| + 1
    ensures var s' := Next(Priority, written, Audit(k)); s'.pending == s.pending && s'.table == written.table
  {
  }

  /** The states of a whole request, step by step. */
  lemma WholeUnfolds(s: State, k: nat, req: Request)
    requires IsVersioned(req.op)
    ensures var w := Whole(k, req);
            && Run(Priority, s, w[..0]) == s
            && Run(Priority, s, w[..1]) == Next(Priority, s, w[0])
            && Run(Priority, s, w[..2]) == Next(Priority, Run(Priority, s, w[..1]), w[1])
            && Run(Priority, s, w[..3]) == Next(Priority, Run(Priority, s, w[..2]), w[2])
            && Run(Priority, s, w) == Next(Priority, Run(Priority, s, w[..3]), w[3])
  {
    var w := Whole(k, req);
    assert w[..1] == [] + [w[0]] && w[..2] == w[..1] + [w[1]] && w[..3] == w[..2] + [w[2]] && w == w[..3] + [w[3]];
    RunSnoc(Priority, s, [], w[0]);
    RunSnoc(Priority, s, w[..1], w[1]);
    RunSnoc(Priority, s, w[..2], w[2]);
    RunSnoc(Priority, s, w[..3], w[3]);
  }

  lemma WholeIsDisciplined(s: State, k: nat, req: Request)
    requires IsVersioned(req.op) && IsLive(s.table, req.op.id) && s.table.rows[req.op.id].rec.version == req.op.expected
    ensures IsDisciplinedRun(Priority, s, Whole(k, req))
  {
    var w := Whole(k, req);
    WholeUnfolds(s, k, req);
    forall i | 0 <= i < |w| ensures IsDisciplined(Run(Priority, s, w[..i]), w[i]) {
      if i == 1 {
        assert (req.op.id, req.op.expected) in Run(Priority, s, w[..1]).observed;
      }
    }
    Witnesses.DisciplinedStepByStep(Priority, s, w);
  }

  /** A request that succeeds alone does so between other requests' steps, disturbs none of them, and is disciplined. */
  lemma WholeRuns(t0: Table, s: State, k: nat, req: Request, t': Table)
    requires Inv(Priority, t0, s) && k !in s.pending && IsVersioned(req.op)
    requires Execute(Priority, s.table, req, 0, 0) == Success(t')
    requires s.table.rows[req.op.id].rec.version == req.op.expected
    ensures var s' := Run(Priority, s, Whole(k, req));
            s'.table == t' && s'.pending == s.pending && Inv(Priority, t0, s')
    ensures IsDisciplinedRun(Priority, s, Whole(k, req))
  {
    var w := Whole(k, req);
    WholeUnfolds(s, k, req);
    BeginsWhole(s, k, req);
    CommitsWhole(s, Run(Priority, s, w[..2]), k, req, t');
    AuditsWhole(s, Run(Priority, s, w[..3]), k);
    RunFromKeepsInv(Priority, t0, s, w);
    WholeIsDisciplined(s, k, req);
  }

  /** Any admissible input. */
  const NOTE := Fields("x", "", "x", "x", "", "", 0.0, "", 0, "x", "x")

  function EditByAdmin(rec: Record): Request {
    Request(Edit(rec.id, rec.version, NOTE), "admin", Admin, "edit")
  }

  function FinalizeByAnother(rec: Record): Request {
    Request(Transition(rec.id, rec.version, "urgent", "reviewed"), rec.preparedBy + "'s reviewer", Reviewer, "finalize")
  }

  /** The row of a decision that is still open. */
  ghost predicate IsOpenDraft(t: Table, id: nat) {
    IsLive(t, id) && t.rows[id].rec.status == Draft
  }

  lemma AdminMayEdit(t: Table, id: nat)
    requires Tables.TableOk(Priority, t) && IsOpenDraft(t, id)
    ensures var rec := t.rows[id].rec;
            var r := Execute(Priority, t, EditByAdmin(rec), 0, 0);
            r.Success? && IsOpenDraft(r.value, id) && r.value.rows[id].rec.version == rec.version + 1
  {
    var rec := t.rows[id].rec;
    assert Tables.RowOk(Priority, id, rec);
    Text.TrimmedIsFixed("x");
    Text.TrimmedIsFixed(rec.code);
    Decisions.EditSucceedsIff(t, EditByAdmin(rec), 0, 0);
    Services.EditIsPlanned(Priority, EditByAdmin(rec), rec);
  }

  lemma FinalizationLeavesFinal(t: Table, req: Request, read: Record, to: Status)
    requires req.op.Transition? && Find(t, req.op.id) == Some(read)
    requires Plan(Priority, req, Some(read))
          == Success(Replace(req.op.id, req.op.expected, read.(status := to, version := req.op.expected + 1),
                             Text.Trim(req.op.reason)))
    requires Execute(Priority, t, req, 0, 0).Success?
    ensures var t' := Execute(Priority, t, req, 0, 0).value;
            && IsLive(t', req.op.id)
            && t'.rows[req.op.id].rec.status == to && t'.rows[req.op.id].rec.version == req.op.expected + 1
  {
  }

  lemma AnotherMayFinalize(t: Table, id: nat)
    requires Tables.TableOk(Priority, t) && IsOpenDraft(t, id)
    ensures var rec := t.rows[id].rec;
            var r := Execute(Priority, t, FinalizeByAnother(rec), 0, 0);
            && r.Success? && IsLive(r.value, id)
            && IsFinal(r.value.rows[id].rec.status) && r.value.rows[id].rec.version == rec.version + 1
  {
    var rec := t.rows[id].rec;
    var req := FinalizeByAnother(rec);
    assert Tables.RowOk(Priority, id, rec);
    assert |rec.preparedBy + "'s reviewer"| > |rec.preparedBy|;
    Witnesses.UrgentIsNamed();
    DecisionEdges(Draft, Urgent);
    Decisions.FinalizationSucceedsIff(t, req, 0, 0);
    Services.TransitionIsPlanned(Priority, req, rec, Urgent);
    FinalizationLeavesFinal(t, req, rec, Urgent);
  }

  /** The request still holds its token and is about to overwrite a final decision. */
  ghost predicate OverwritesFinal(s: State, token: nat, pending: Pending) {
    && token in s.pending && s.pending[token] == pending && pending.Writing? && IsVersioned(pending.request.op)
    && Commits(Priority, s, token, 0, 0)
    && pending.request.op.id in s.table.rows && IsFinal(s.table.rows[pending.request.op.id].rec.status)
  }

  /** A waiting edit or status change gets through exactly to a live decision at the version it names. */
  lemma CommitsIffVersionMatches(t0: Table, s: State, token: nat, newId: nat, now: int)
    requires Inv(Priority, t0, s) && token in s.pending && s.pending[token].Writing?
    requires IsVersioned(s.pending[token].request.op)
    ensures var op := s.pending[token].request.op;
            Commits(Priority, s, token, newId, now)
            <==> IsLive(s.table, op.id) && s.table.rows[op.id].rec.version == op.expected
  {
    var Writing(req, read) := s.pending[token];
    assert WritingOk(Priority, s.table, req, read);
    Decisions.ApplySucceedsIff(s.table, Plan(Priority, req, read).value, req, newId, now);
  }

  lemma {:induction false} DisciplinedAppend(e: Entity, s: State, first: seq<Step>, rest: seq<Step>)
    requires IsDisciplinedRun(e, s, first) && IsDisciplinedRun(e, Run(e, s, first), rest)
    ensures Run(e, s, first + rest) == Run(e, Run(e, s, first), rest)
    ensures IsDisciplinedRun(e, s, first + rest)
  {
    if rest == [] {
      assert first + rest == first;
    } else {
      var front := rest[..|rest| - 1];
      DisciplinedAppend(e, s, first, front);
      assert (first + rest)[..|first + rest| - 1] == first + front;
    }
  }

  lemma {:induction false} AboveAll(used: set<nat>) returns (k: nat)
    ensures forall x :: x in used ==> x < k
    decreases |used|
  {
    if used == {} {
      k := 0;
    } else {
      var x :| x in used;
      var rest := used - {x};
      k := AboveAll(rest);
      assert forall y :: y in used ==> y == x || y in rest;
      if k <= x {
        k := x + 1;
      }
    }
  }

  /** Others finalize the draft just below the version a waiting request names, which may now overwrite it. */
  lemma LastStepToOverwriting(t0: Table, s: State, token: nat, pending: Pending) returns (steps: seq<Step>)
    requires Inv(Priority, t0, s) && token in s.pending && s.pending[token] == pending
    requires pending.Writing? && IsVersioned(pending.request.op)
    requires var op := pending.request.op;
             IsOpenDraft(s.table, op.id) && s.table.rows[op.id].rec.version + 1 == op.expected
    ensures IsDisciplinedRun(Priority, s, steps)
    ensures OverwritesFinal(Run(Priority, s, steps), token, pending)
  {
    var id := pending.request.op.id;
    var req := FinalizeByAnother(s.table.rows[id].rec);
    assert Tables.RowOk(Priority, id, s.table.rows[id].rec);
    var k := AboveAll(s.pending.Keys);
    AnotherMayFinalize(s.table, id);
    WholeRuns(t0, s, k, req, Execute(Priority, s.table, req, 0, 0).value);
    steps := Whole(k, req);
    CommitsIffVersionMatches(t0, Run(Priority, s, steps), token, 0, 0);
  }

  /** An admin's edit brings the draft one version on and leaves waiting requests waiting. */
  lemma EditLeadsOn(t0: Table, s: State, id: nat) returns (steps: seq<Step>)
    requires Inv(Priority, t0, s) && IsOpenDraft(s.table, id)
    ensures IsDisciplinedRun(Priority, s, steps) && Inv(Priority, t0, Run(Priority, s, steps))
    ensures var s' := Run(Priority, s, steps);
            && s'.pending == s.pending && IsOpenDraft(s'.table, id)
            && s'.table.rows[id].rec.version == s.table.rows[id].rec.version + 1
  {
    var req := EditByAdmin(s.table.rows[id].rec);
    assert Tables.RowOk(Priority, id, s.table.rows[id].rec);
    var k := AboveAll(s.pending.Keys);
    AdminMayEdit(s.table, id);
    WholeRuns(t0, s, k, req, Execute(Priority, s.table, req, 0, 0).value);
    steps := Whole(k, req);
  }

  /**
   From any reachable state: while a draft is live and below the version a
   waiting request names, disciplined requests of others (edits up to that
   version, the last of them a finalization) lead to a state in which the
   waiting request overwrites a final decision.
   */
  lemma {:induction false} GuessComesTrue(t0: Table, s: State, token: nat, pending: Pending) returns (steps: seq<Step>)
    requires Inv(Priority, t0, s) && token in s.pending && s.pending[token] == pending
    requires pending.Writing? && IsVersioned(pending.request.op)
    requires var op := pending.request.op;
             IsOpenDraft(s.table, op.id) && s.table.rows[op.id].rec.version < op.expected
    ensures IsDisciplinedRun(Priority, s, steps)
    ensures OverwritesFinal(Run(Priority, s, steps), token, pending)
    decreases pending.request.op.expected - s.table.rows[pending.request.op.id].rec.version
  {
    var op := pending.request.op;
    if s.table.rows[op.id].rec.version + 1 == op.expected {
      steps := LastStepToOverwriting(t0, s, token, pending);
    } else {
      var first := EditLeadsOn(t0, s, op.id);
      var rest := GuessComesTrue(t0, Run(Priority, s, first), token, pending);
      DisciplinedAppend(Priority, s, first, rest);
      steps := first + rest;
    }
  }

  /** Some continuation, of any clients, ends with the request about to overwrite a final decision. */
  ghost predicate MayUndoFinal(s: State, token: nat, pending: Pending) {
    exists steps :: OverwritesFinal(Run(Priority, s, steps), token, pending)
  }

  /** The same with disciplined clients from here on. */
  ghost predicate MayUndoFinalAmongDisciplined(s: State, token: nat, pending: Pending) {
    exists steps :: IsDisciplinedRun(Priority, s, steps) && OverwritesFinal(Run(Priority, s, steps), token, pending)
  }

  lemma OnlyGuessesUndo(t0: Table, s: State, steps: seq<Step>, token: nat, pending: Pending)
    requires Inv(Priority, t0, s) && OverwritesFinal(Run(Priority, s, steps), token, pending)
    ensures pending.read.Some? && pending.read.value.version < pending.request.op.expected
  {
    RunFromKeepsInv(Priority, t0, s, steps);
    Decisions.FinalYieldsOnlyToGuesses(t0, Run(Priority, s, steps), token, 0, 0);
  }

  /**
   From any reachable state, an edit or status change that passes its guards can
   later come to overwrite a final decision if and only if it names a version
   newer than the row it has just read, whether or not the others are disciplined.
   */
  lemma UndoesFinalIffGuessed(t0: Table, s: State, token: nat, req: Request)
    requires Inv(Priority, t0, s) && token !in s.pending && IsVersioned(req.op)
    requires Plan(Priority, req, Find(s.table, req.op.id)).Success?
    ensures var begun, pending := Next(Priority, s, Begin(token, req)), Writing(req, Find(s.table, req.op.id));
            var isGuess := s.table.rows[req.op.id].rec.version < req.op.expected;
            && (MayUndoFinal(begun, token, pending) <==> isGuess)
            && (MayUndoFinalAmongDisciplined(begun, token, pending) <==> isGuess)
  {
    var begun, pending := Next(Priority, s, Begin(token, req)), Writing(req, Find(s.table, req.op.id));
    NextKeepsInv(Priority, t0, s, Begin(token, req));
    if MayUndoFinal(begun, token, pending) {
      var steps :| OverwritesFinal(Run(Priority, begun, steps), token, pending);
      OnlyGuessesUndo(t0, begun, steps, token, pending);
    }
    if s.table.rows[req.op.id].rec.version < req.op.expected {
      GuardsPassOnDrafts(req, s.table.rows[req.op.id].rec);
      var steps := GuessComesTrue(t0, begun, token, pending);
    }
  }

  lemma GuardsPassOnDrafts(req: Request, read: Record)
    requires IsVersioned(req.op) && Plan(Priority, req, Some(read)).Success?
    ensures read.status == Draft
  {
    if req.op.Transition? {
      DecisionEdges(read.status, Named(Text.Trim(req.op.target)).value);
    }
  }
}
