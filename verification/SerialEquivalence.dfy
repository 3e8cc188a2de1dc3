/**
 Interleaved requests leave what the successful ones, run alone in the order of
 their commits, would have left. Deleting a decision is the exception: it has
 no version check, so a deletion may reach a decision finalized since it was
 read, which no serial run allows. Such late deletions are the only difference.
 */
module SerialEquivalence {
  import opened Outcomes
  import opened Status
  import opened Records
  import Tables
  import opened Protocol
  import opened Invariants
  import opened Discipline

  /** The outcome of the log's requests, each run alone, one after the other; a refused one changes nothing. */
  function Replay(e: Entity, t0: Table, log: seq<Entry>): Table {
    if log == [] then t0
    else
      var t, c := Replay(e, t0, log[..|log| - 1]), log[|log| - 1];
      var r := Execute(e, t, c.request, c.id, c.now);
      if r.Success? then r.value else t
  }

  /** Run alone, every one of the log's requests succeeds. */
  ghost predicate AllSucceedAlone(e: Entity, t0: Table, log: seq<Entry>) {
    log == [] ||
    (var front, c := log[..|log| - 1], log[|log| - 1];
     AllSucceedAlone(e, t0, front) && Execute(e, Replay(e, t0, front), c.request, c.id, c.now).Success?)
  }

  /** A deletion of a decision that was no longer a draft. */
  predicate IsLate(e: Entity, c: Entry) {
    e.Priority? && c.request.op.Delete? && c.before.Some? && c.before.value.status != Initial(e)
  }

  function LateDeletes(e: Entity, log: seq<Entry>): set<nat> {
    set i | 0 <= i < |log| && IsLate(e, log[i]) :: log[i].id
  }

  /** `t` with the rows `ids` not deleted. */
  function Revive(t: Table, ids: set<nat>): Table {
    t.(rows := map id | id in t.rows :: if id in ids then t.rows[id].(deleted := false) else t.rows[id])
  }

  lemma LateDeletesAppend(e: Entity, log: seq<Entry>, c: Entry)
    ensures LateDeletes(e, log + [c]) == LateDeletes(e, log) + (if IsLate(e, c) then {c.id} else {})
  {
    var longer := log + [c];
    forall id ensures id in LateDeletes(e, longer) <==> id in LateDeletes(e, log) || (IsLate(e, c) && id == c.id) {
      if id in LateDeletes(e, log) {
        var i :| 0 <= i < |log| && IsLate(e, log[i]) && log[i].id == id;
        assert longer[i] == log[i];
      }
      if IsLate(e, c) && id == c.id {
        assert longer[|log|] == c;
      }
    }
  }

  lemma ReplayAppend(e: Entity, t0: Table, log: seq<Entry>, c: Entry)
    ensures var r := Execute(e, Replay(e, t0, log), c.request, c.id, c.now);
            && Replay(e, t0, log + [c]) == (if r.Success? then r.value else Replay(e, t0, log))
            && (AllSucceedAlone(e, t0, log + [c]) <==> AllSucceedAlone(e, t0, log) && r.Success?)
  {
    assert (log + [c])[..|log|] == log;
  }

  /** A write does not notice the revival of rows it does not touch. */
  lemma ApplyOnRevived(e: Entity, t: Table, ids: set<nat>, w: Write, req: Request, newId: nat, now: int)
    requires w.Insert? ==> newId !in t.rows && newId !in ids
    requires !w.Insert? ==> w.id !in ids
    requires Apply(e, t, w, req, newId, now).Success?
    ensures Apply(e, Revive(t, ids), w, req, newId, now)
         == Success(Revive(Apply(e, t, w, req, newId, now).value, ids))
  {
    var u, t' := Revive(t, ids), Apply(e, t, w, req, newId, now).value;
    match w
    case Insert(item, reason) =>
      assert !IsCodeTaken(u, item.code);
      assert u.rows[newId := t'.rows[newId]] == Revive(t', ids).rows;
    case Replace(id, _, _, _) =>
      assert u.rows[id] == t.rows[id];
      assert u.rows[id := t'.rows[id]] == Revive(t', ids).rows;
    case Remove(id) =>
      assert u.rows[id := t'.rows[id]] == Revive(t', ids).rows;
  }

  /** A commit that is not late does, run alone, just what it did. */
  lemma TimelyCommitRunsAlone(e: Entity, t: Table, ids: set<nat>, c: Entry, newId: nat, t': Table)
    requires RowWritten(e, t, t', c) && SawTheRow(c) && !IsLate(e, c)
    requires c.id == TargetOf(c.request.op, newId) && IsFreshFor(t, c.request.op, newId) && c.id !in ids
    requires Apply(e, t, Plan(e, c.request, c.read).value, c.request, newId, c.now) == Success(t')
    ensures Execute(e, Revive(t, ids), c.request, c.id, c.now) == Success(Revive(t', ids))
  {
    var req, u := c.request, Revive(t, ids);
    var plan := Plan(e, req, c.read);
    assert Plan(e, req, ReadFor(u, req.op)) == plan by {
      if !req.op.Create? {
        assert u.rows[c.id] == t.rows[c.id];
        assert ReadFor(u, req.op) == c.before;
      }
    }
    assert Apply(e, t, plan.value, req, c.id, c.now) == Success(t');
    ApplyOnRevived(e, t, ids, plan.value, req, c.id, c.now);
  }

  /** A late deletion is refused when run alone, and reviving its row hides it. */
  lemma LateDeleteIsRefusedAlone(e: Entity, t: Table, ids: set<nat>, c: Entry, t': Table)
    requires RowWritten(e, t, t', c) && IsLate(e, c) && c.id !in ids
    requires t'.rows[c.id] == t.rows[c.id].(deleted := true)
    ensures Execute(e, Revive(t, ids), c.request, c.id, c.now) == Failure(DecisionLocked)
    ensures Revive(t', ids + {c.id}) == Revive(t, ids)
  {
    assert Revive(t, ids).rows[c.id] == t.rows[c.id];
    assert t'.revisions + [] == t.revisions + LinkOf(e, c) == t.revisions;
    assert Revive(t', ids + {c.id}).rows == Revive(t, ids).rows;
  }

  /** The replayed log and the table differ in the late deletions and in nothing else. */
  ghost predicate Agrees(e: Entity, t0: Table, log: seq<Entry>, t: Table) {
    && Replay(e, t0, log) == Revive(t, LateDeletes(e, log))
    && (AllSucceedAlone(e, t0, log) <==> LateDeletes(e, log) == {})
    && (forall id :: id in LateDeletes(e, log) ==> IsDeleted(t, id))
  }

  /** `s'.table` is what the database made of the write `c` records. */
  ghost predicate IsApplied(e: Entity, t: Table, t': Table, c: Entry, newId: nat) {
    && Plan(e, c.request, c.read).Success?
    && IsFreshFor(t, c.request.op, newId) && c.id == TargetOf(c.request.op, newId)
    && Apply(e, t, Plan(e, c.request, c.read).value, c.request, newId, c.now) == Success(t')
  }

  lemma CommitIsApplied(e: Entity, s: State, token: nat, newId: nat, now: int)
    requires Commits(e, s, token, newId, now)
    ensures IsApplied(e, s.table, DoCommit(e, s, token, newId, now).table, Committed(e, s, token, newId, now), newId)
  {
  }

  lemma DeleteOnlyMarks(e: Entity, t: Table, t': Table, c: Entry, newId: nat)
    requires IsApplied(e, t, t', c, newId) && c.request.op.Delete?
    ensures c.id in t.rows && c.id in t'.rows && t'.rows[c.id] == t.rows[c.id].(deleted := true)
  {
  }

  lemma TimelyCommitAgrees(e: Entity, t0: Table, log: seq<Entry>, t: Table, t': Table, c: Entry, newId: nat)
    requires Agrees(e, t0, log, t) && RowWritten(e, t, t', c) && SawTheRow(c) && !IsLate(e, c)
    requires IsApplied(e, t, t', c, newId)
    ensures Agrees(e, t0, log + [c], t')
  {
    var ids := LateDeletes(e, log);
    assert c.id !in ids;
    TimelyCommitRunsAlone(e, t, ids, c, newId, t');
    ReplayAppend(e, t0, log, c);
    LateDeletesAppend(e, log, c);
    assert LateDeletes(e, log + [c]) == ids;
  }

  lemma LateCommitAgrees(e: Entity, t0: Table, log: seq<Entry>, t: Table, t': Table, c: Entry, newId: nat)
    requires Agrees(e, t0, log, t) && RowWritten(e, t, t', c) && IsLate(e, c)
    requires IsApplied(e, t, t', c, newId)
    ensures Agrees(e, t0, log + [c], t')
  {
    var ids := LateDeletes(e, log);
    assert c.id !in ids;
    DeleteOnlyMarks(e, t, t', c, newId);
    LateDeleteIsRefusedAlone(e, t, ids, c, t');
    ReplayAppend(e, t0, log, c);
    LateDeletesAppend(e, log, c);
    assert c.id in LateDeletes(e, log + [c]);
  }

  lemma CommitKeepsAgreement(e: Entity, t0: Table, s: State, step: Step)
    requires Inv(e, t0, s) && Agrees(e, t0, s.log, s.table)
    requires WrittenBy(e, s, step).Some? && SawTheRow(WrittenBy(e, s, step).value)
    ensures Agrees(e, t0, Next(e, s, step).log, Next(e, s, step).table)
  {
    var c, s' := WrittenBy(e, s, step).value, Next(e, s, step);
    StepEffect(e, t0, s, step);
    assert s'.log[|s.log|] == c;
    CommitIsApplied(e, s, step.token, step.newId, step.now);
    if IsLate(e, c) {
      LateCommitAgrees(e, t0, s.log, s.table, s'.table, c, step.newId);
    } else {
      TimelyCommitAgrees(e, t0, s.log, s.table, s'.table, c, step.newId);
    }
  }

  lemma StepKeepsAgreement(e: Entity, t0: Table, s: State, step: Step)
    requires Inv(e, t0, s) && Agrees(e, t0, s.log, s.table)
    requires WrittenBy(e, s, step).Some? ==> SawTheRow(WrittenBy(e, s, step).value)
    ensures Agrees(e, t0, Next(e, s, step).log, Next(e, s, step).table)
  {
    if WrittenBy(e, s, step).Some? {
      CommitKeepsAgreement(e, t0, s, step);
    } else {
      OnlyCommitsWrite(e, s, step);
    }
  }

  lemma StartAgrees(e: Entity, t0: Table)
    ensures Agrees(e, t0, [], t0)
  {
    assert Revive(t0, {}).rows == t0.rows;
  }

  lemma {:induction false} RunAgrees(e: Entity, t0: Table, steps: seq<Step>)
    requires Tables.TableOk(e, t0) && NamedTheirVersions(Run(e, Start(t0), steps).log, 0)
    ensures Agrees(e, t0, Run(e, Start(t0), steps).log, Run(e, Start(t0), steps).table)
  {
    if steps == [] {
      StartAgrees(e, t0);
    } else {
      var front := steps[..|steps| - 1];
      StartIsOk(e, t0);
      LastStepSaw(e, t0, Start(t0), steps, 0);
      RunAgrees(e, t0, front);
      StepKeepsAgreement(e, t0, Run(e, Start(t0), front), steps[|steps| - 1]);
    }
  }

  /** The state is what the log's requests leave run alone, each succeeding, if and only if none deleted late. */
  ghost predicate IsSerialButForLate(e: Entity, t0: Table, s: State) {
    var late := LateDeletes(e, s.log);
    && Replay(e, t0, s.log) == Revive(s.table, late)
    && (AllSucceedAlone(e, t0, s.log) <==> late == {})
    && (Replay(e, t0, s.log) == s.table <==> late == {})
  }

  /**
   Serial equivalence, whatever clients do. Whenever the successful edits and
   status changes named the version they had read, the final rows and revisions
   are those of the successful requests run alone in commit order, each
   succeeding, if and only if no decision was deleted late. In every case the
   two differ at most in the late deletions' marks.
   */
  lemma NamedVersionsAreSerial(e: Entity, t0: Table, steps: seq<Step>)
    requires Tables.TableOk(e, t0) && NamedTheirVersions(Run(e, Start(t0), steps).log, 0)
    ensures IsSerialButForLate(e, t0, Run(e, Start(t0), steps))
  {
    var s := Run(e, Start(t0), steps);
    RunAgrees(e, t0, steps);
    var late := LateDeletes(e, s.log);
    if late == {} {
      assert Revive(s.table, late).rows == s.table.rows;
    } else {
      var id :| id in late;
      assert Revive(s.table, late).rows[id] != s.table.rows[id];
    }
  }

  /** Every interleaving of disciplined clients is serial but for late deletions. */
  lemma InterleavingIsSerial(e: Entity, t0: Table, steps: seq<Step>)
    requires Tables.TableOk(e, t0) && IsDisciplinedRun(e, Start(t0), steps)
    ensures IsSerialButForLate(e, t0, Run(e, Start(t0), steps))
  {
    DisciplinedStartNames(e, t0, steps);
    NamedVersionsAreSerial(e, t0, steps);
  }

  /** Bridges, inspections and defects have no late deletions: their runs are always serial. */
  lemma CyclicEntitiesAreSerial(e: Entity, t0: Table, steps: seq<Step>)
    requires !e.Priority?
    requires Tables.TableOk(e, t0) && NamedTheirVersions(Run(e, Start(t0), steps).log, 0)
    ensures var s := Run(e, Start(t0), steps);
            Replay(e, t0, s.log) == s.table && AllSucceedAlone(e, t0, s.log)
  {
    NamedVersionsAreSerial(e, t0, steps);
    assert LateDeletes(e, Run(e, Start(t0), steps).log) == {};
  }
}
