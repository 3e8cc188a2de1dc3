/**
 What the client discipline buys. The guards of an edit or status change look
 at the snapshot, but the conditional write compares the version the client
 named: the two agree exactly when the snapshot's version is the named one,
 which the program does not check. Naming only versions seen before implies it.
 */
module Discipline {
  import opened Status
  import opened Records
  import Tables
  import opened Protocol
  import opened Invariants

  predicate IsVersioned(op: Operation) {
    op.Edit? || op.Transition?
  }

  /**
   With no assumption on clients: when an edit or status change is about to
   succeed, its guards have looked at the very row it overwrites if and only if
   the version it read is the version its client named.
   */
  lemma GuardsSawTheRowIff(e: Entity, t0: Table, s: State, token: nat, newId: nat, now: int)
    requires Inv(e, t0, s) && Commits(e, s, token, newId, now)
    requires IsVersioned(s.pending[token].request.op)
    ensures var Writing(req, read) := s.pending[token];
            && read.Some? && Find(s.table, req.op.id).Some?
            && read.value.version <= req.op.expected
            && (read == Find(s.table, req.op.id) <==> read.value.version == req.op.expected)
  {
    assert WritingOk(e, s.table, s.pending[token].request, s.pending[token].read);
  }

  /** Under the discipline a request names no version newer than the one it read. */
  ghost predicate DisciplineOk(s: State) {
    && (forall k :: k in s.pending && s.pending[k].Writing? && IsVersioned(s.pending[k].request.op) ==>
          s.pending[k].read.Some? && s.pending[k].request.op.expected <= s.pending[k].read.value.version)
    && (forall i :: 0 <= i < |s.log| ==> SawTheRow(s.log[i]))
  }

  /** The guards of this commit looked at the row it overwrote. */
  ghost predicate SawTheRow(c: Entry) {
    IsVersioned(c.request.op) ==> c.read == c.before
  }

  /** Under the discipline a commit's guards saw the row: the version read is at least the named one, and no more. */
  lemma NextCommitSawTheRow(e: Entity, t0: Table, s: State, step: Step)
    requires Inv(e, t0, s) && DisciplineOk(s) && WrittenBy(e, s, step).Some?
    ensures SawTheRow(WrittenBy(e, s, step).value)
  {
    StepEffect(e, t0, s, step);
    if IsVersioned(s.pending[step.token].request.op) {
      GuardsSawTheRowIff(e, t0, s, step.token, step.newId, step.now);
    }
  }

  lemma CommitKeepsDiscipline(e: Entity, s: State, s': State, token: nat, c: Entry)
    requires IsCommit(e, s, s', token, c) && DisciplineOk(s) && SawTheRow(c)
    ensures DisciplineOk(s')
  {
  }

  lemma NextKeepsDiscipline(e: Entity, t0: Table, s: State, step: Step)
    requires Inv(e, t0, s) && DisciplineOk(s) && IsDisciplined(s, step)
    ensures DisciplineOk(Next(e, s, step))
  {
    StepEffect(e, t0, s, step);
    if WrittenBy(e, s, step).Some? {
      NextCommitSawTheRow(e, t0, s, step);
      CommitKeepsDiscipline(e, s, Next(e, s, step), step.token, WrittenBy(e, s, step).value);
    } else if step.Begin? {
      BeginKeepsDiscipline(e, s, step.token, step.request);
    }
  }

  /** A request that names an observed version reads that version or a later one. */
  lemma ObservedIsNotNewer(e: Entity, s: State, op: Operation)
    requires ObservedOk(s) && IsVersioned(op) && (op.id, op.expected) in s.observed && IsLive(s.table, op.id)
    ensures op.expected <= s.table.rows[op.id].rec.version
  {
  }

  lemma BeginKeepsDiscipline(e: Entity, s: State, token: nat, request: Request)
    requires ObservedOk(s) && DisciplineOk(s) && IsDisciplined(s, Begin(token, request))
    ensures DisciplineOk(DoBegin(e, s, token, request))
  {
    var op := request.op;
    if IsVersioned(op) && IsLive(s.table, op.id) {
      ObservedIsNotNewer(e, s, op);
    }
  }

  /** A disciplined run, from any reachable state whose past was disciplined, stays so. */
  lemma {:induction false} DisciplinedRun(e: Entity, t0: Table, s: State, steps: seq<Step>)
    requires Inv(e, t0, s) && DisciplineOk(s) && IsDisciplinedRun(e, s, steps)
    ensures Inv(e, t0, Run(e, s, steps)) && DisciplineOk(Run(e, s, steps))
  {
    if steps != [] {
      var front := steps[..|steps| - 1];
      DisciplinedRun(e, t0, s, front);
      NextKeepsInv(e, t0, Run(e, s, front), steps[|steps| - 1]);
      NextKeepsDiscipline(e, t0, Run(e, s, front), steps[|steps| - 1]);
    }
  }

  lemma DisciplinedFromStart(e: Entity, t0: Table, steps: seq<Step>)
    requires Tables.TableOk(e, t0) && IsDisciplinedRun(e, Start(t0), steps)
    ensures Inv(e, t0, Run(e, Start(t0), steps)) && DisciplineOk(Run(e, Start(t0), steps))
  {
    StartIsOk(e, t0);
    DisciplinedRun(e, t0, Start(t0), steps);
  }

  /**
   When every version named in a run had been observed, the snapshot an edit or
   status change was guarded on equals the row it overwrites in every field.
   */
  lemma DisciplinedCommitSawTheRow(e: Entity, t0: Table, steps: seq<Step>, step: Step)
    requires Tables.TableOk(e, t0) && IsDisciplinedRun(e, Start(t0), steps)
    requires var c := WrittenBy(e, Run(e, Start(t0), steps), step); c.Some? && IsVersioned(c.value.request.op)
    ensures var s := Run(e, Start(t0), steps);
            var c := WrittenBy(e, s, step).value;
            c.read.Some? && c.read == c.before == Find(s.table, c.id)
  {
    DisciplinedFromStart(e, t0, steps);
    NextCommitSawTheRow(e, t0, Run(e, Start(t0), steps), step);
    StepEffect(e, t0, Run(e, Start(t0), steps), step);
  }

  // ----- Runs whose writes named the version they read -----

  /** From entry `from` on, every successful edit and status change named the version it had read. */
  ghost predicate NamedTheirVersions(log: seq<Entry>, from: nat) {
    forall i :: from <= i < |log| ==> NamedItsVersion(log[i])
  }

  ghost predicate NamedItsVersion(c: Entry) {
    IsVersioned(c.request.op) ==> c.read.Some? && c.read.value.version == c.request.op.expected
  }

  /** Naming the version read is having seen the row overwritten. */
  lemma NamedIsSaw(e: Entity, c: Entry)
    requires EntryOk(e, c)
    ensures NamedItsVersion(c) <==> SawTheRow(c)
  {
  }

  /** In a disciplined run every edit and status change that succeeds names the version it read. */
  lemma DisciplinedRunNames(e: Entity, t0: Table, s: State, steps: seq<Step>)
    requires Inv(e, t0, s) && DisciplineOk(s) && IsDisciplinedRun(e, s, steps)
    ensures NamedTheirVersions(Run(e, s, steps).log, 0)
  {
    DisciplinedRun(e, t0, s, steps);
    var log := Run(e, s, steps).log;
    forall i | 0 <= i < |log| ensures NamedItsVersion(log[i]) {
      NamedIsSaw(e, log[i]);
    }
  }

  lemma DisciplinedStartNames(e: Entity, t0: Table, steps: seq<Step>)
    requires Tables.TableOk(e, t0) && IsDisciplinedRun(e, Start(t0), steps)
    ensures NamedTheirVersions(Run(e, Start(t0), steps).log, 0)
  {
    StartIsOk(e, t0);
    DisciplinedRunNames(e, t0, Start(t0), steps);
  }

  lemma {:induction false} LogGrows(e: Entity, t0: Table, s: State, steps: seq<Step>)
    requires Inv(e, t0, s)
    ensures s.log <= Run(e, s, steps).log
  {
    if steps != [] {
      var front, step := steps[..|steps| - 1], steps[|steps| - 1];
      LogGrows(e, t0, s, front);
      RunFromKeepsInv(e, t0, s, front);
      StepEffect(e, t0, Run(e, s, front), step);
    }
  }

  /** The last step of a run in which versions were named as read: its commit, if it makes one, saw its row. */
  lemma LastStepSaw(e: Entity, t0: Table, s: State, steps: seq<Step>, from: nat)
    requires Inv(e, t0, s) && from <= |s.log| && steps != []
    requires NamedTheirVersions(Run(e, s, steps).log, from)
    ensures var mid, step := Run(e, s, steps[..|steps| - 1]), steps[|steps| - 1];
            var c, s' := WrittenBy(e, mid, step), Run(e, s, steps);
            && Inv(e, t0, mid) && NamedTheirVersions(mid.log, from)
            && (c.Some? ==> SawTheRow(c.value) && step.Commit? && IsCommit(e, mid, s', step.token, c.value))
            && (c.None? ==> s'.table == mid.table && s'.log == mid.log)
  {
    var front, step := steps[..|steps| - 1], steps[|steps| - 1];
    var mid, s' := Run(e, s, front), Run(e, s, steps);
    RunFromKeepsInv(e, t0, s, front);
    LogGrows(e, t0, s, front);
    StepEffect(e, t0, mid, step);
    var c := WrittenBy(e, mid, step);
    assert forall i :: 0 <= i < |mid.log| ==> s'.log[i] == mid.log[i];
    if c.Some? {
      assert s'.log[|mid.log|] == c.value;
      NamedIsSaw(e, c.value);
    }
  }

  lemma RunSnoc(e: Entity, s: State, steps: seq<Step>, step: Step)
    ensures Run(e, s, steps + [step]) == Next(e, Run(e, s, steps), step)
  {
    assert (steps + [step])[..|steps|] == steps;
  }
}
