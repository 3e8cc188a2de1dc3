/**
 The audit trail of a run. An entry is appended outside the transaction and may
 be lost, but none is invented: each comes from its own earlier commit. When
 requests run one at a time and no append fails, the trail replays the status
 history of every record.
 */
module Audits {
  import opened Outcomes
  import opened Status
  import opened Records
  import Tables
  import opened AuditEntries
  import opened Protocol
  import opened Invariants
  import opened Discipline
  import opened Walks

  /** Entry i of the trail was made from commit `sources[i]`, no commit has two, and those still due have none. */
  ghost predicate AuditsOk(e: Entity, s: State) {
    && |s.audits| == |s.sources|
    && (forall i :: 0 <= i < |s.sources| ==> s.sources[i] < |s.log| && s.audits[i] == AuditOf(e, s.log[s.sources[i]]))
    && (forall i, j :: 0 <= i < j < |s.sources| ==> s.sources[i] != s.sources[j])
    && (forall k :: k in s.pending && s.pending[k].Auditing? ==>
          s.pending[k].commit < |s.log| && s.pending[k].commit !in s.sources)
    && (forall k, m ::
          k in s.pending && m in s.pending && k != m && s.pending[k].Auditing? && s.pending[m].Auditing? ==>
          s.pending[k].commit != s.pending[m].commit)
  }

  lemma AuditKeepsAudits(e: Entity, s: State, token: nat)
    requires AuditsOk(e, s)
    ensures AuditsOk(e, DoAudit(e, s, token))
  {
  }

  lemma CommitKeepsAudits(e: Entity, s: State, s': State, token: nat, c: Entry)
    requires AuditsOk(e, s) && IsCommit(e, s, s', token, c)
    ensures AuditsOk(e, s')
  {
  }

  lemma NextKeepsAudits(e: Entity, t0: Table, s: State, step: Step)
    requires Inv(e, t0, s) && AuditsOk(e, s)
    ensures AuditsOk(e, Next(e, s, step))
  {
    if WrittenBy(e, s, step).Some? {
      StepEffect(e, t0, s, step);
      CommitKeepsAudits(e, s, Next(e, s, step), step.token, WrittenBy(e, s, step).value);
    } else if step.Audit? {
      AuditKeepsAudits(e, s, step.token);
    }
  }

  /** What an entry says of the commit it came from. */
  ghost predicate Reports(e: Entity, a: AuditEntry, c: Entry) {
    && a.actor == OrElse(c.request.actor, "system") && a.requestId == OrElse(c.request.requestId, "untracked")
    && a.entityType == TypeName(e) && a.entityId == c.id
    && match c.request.op
       case Create(_, _) => a.action == "create" && a.after == Label(c.after.status)
       case Edit(_, _, _) => a.action == "update"
       case Transition(_, _, _, reason) =>
         a.action == "transition" && a.after == Label(c.after.status) && a.detail == reason
       case Delete(_) => a.action == "delete" && a.after == "deleted"
  }

  lemma {:induction false} RunKeepsAudits(e: Entity, t0: Table, steps: seq<Step>)
    requires Tables.TableOk(e, t0)
    ensures AuditsOk(e, Run(e, Start(t0), steps))
  {
    if steps != [] {
      var front := steps[..|steps| - 1];
      RunKeepsAudits(e, t0, front);
      RunKeepsInv(e, t0, front);
      NextKeepsAudits(e, t0, Run(e, Start(t0), front), steps[|steps| - 1]);
    }
  }

  lemma EntryReports(e: Entity, c: Entry)
    ensures Reports(e, AuditOf(e, c), c)
  {
  }

  /**
   Audit soundness, in every interleaving and whatever the clients do: there is
   an injective map from the entries to commits made before them, and each entry
   reports its commit's actor, request, record and action.
   */
  lemma NoEntryIsInvented(e: Entity, t0: Table, steps: seq<Step>)
    requires Tables.TableOk(e, t0)
    ensures var s := Run(e, Start(t0), steps);
            && |s.sources| == |s.audits|
            && (forall i :: 0 <= i < |s.audits| ==>
                  s.sources[i] < |s.log| && Reports(e, s.audits[i], s.log[s.sources[i]]))
            && (forall i, j :: 0 <= i < j < |s.audits| ==> s.sources[i] != s.sources[j])
  {
    RunKeepsAudits(e, t0, steps);
    var s := Run(e, Start(t0), steps);
    forall i | 0 <= i < |s.audits| ensures s.sources[i] < |s.log| && Reports(e, s.audits[i], s.log[s.sources[i]]) {
      EntryReports(e, s.log[s.sources[i]]);
    }
  }

  // ----- Requests one at a time -----

  /** One request with the id and time the database would give its write. */
  datatype Job = Job(request: Request, newId: nat, now: int)

  /** The steps of a request nobody interrupts. */
  function Alone(job: Job): seq<Step> {
    [Begin(0, job.request), Commit(0, job.newId, job.now), Audit(0), Abort(0)]
  }

  function OneAtATime(jobs: seq<Job>): seq<Step> {
    if jobs == [] then [] else OneAtATime(jobs[..|jobs| - 1]) + Alone(jobs[|jobs| - 1])
  }

  function AuditsOf(e: Entity, log: seq<Entry>): seq<AuditEntry> {
    if log == [] then [] else AuditsOf(e, log[..|log| - 1]) + [AuditOf(e, log[|log| - 1])]
  }

  /** The requests' token is free, every commit has its entry in commit order, and had read the very row it wrote to. */
  ghost predicate IsSettled(e: Entity, s: State) {
    && 0 !in s.pending
    && s.audits == AuditsOf(e, s.log)
    && (forall i :: 0 <= i < |s.log| ==> s.log[i].read == s.log[i].before)
  }

  function AfterAlone(e: Entity, s: State, job: Job): State {
    DoAudit(e, DoCommit(e, DoBegin(e, s, 0, job.request), 0, job.newId, job.now), 0)
  }

  lemma AloneRuns(e: Entity, s: State, steps: seq<Step>, job: Job)
    ensures Run(e, s, steps + Alone(job)) == Next(e, AfterAlone(e, Run(e, s, steps), job), Abort(0))
  {
    var a := Alone(job);
    RunSnoc(e, s, steps, a[0]);
    RunSnoc(e, s, steps + [a[0]], a[1]);
    RunSnoc(e, s, steps + [a[0]] + [a[1]], a[2]);
    RunSnoc(e, s, steps + [a[0]] + [a[1]] + [a[2]], a[3]);
    assert steps + Alone(job) == steps + [a[0]] + [a[1]] + [a[2]] + [a[3]];
  }

  /** `s'` has the log and trail of `s`, or one more commit with its entry. */
  ghost predicate GrewInStep(e: Entity, s: State, s': State) {
    || (s'.log == s.log && s'.audits == s.audits)
    || (|s'.log| > 0
        && (var c := s'.log[|s'.log| - 1];
            s'.log == s.log + [c] && c.read == c.before && s'.audits == s.audits + [AuditOf(e, c)]))
  }

  /** A request run alone has exactly the effect of `Execute`, and its entry, if it succeeds. */
  lemma AloneIsExecute(e: Entity, t0: Table, s: State, job: Job)
    requires Inv(e, t0, s) && 0 !in s.pending && IsFreshFor(s.table, job.request.op, job.newId)
    ensures var s', r := AfterAlone(e, s, job), Execute(e, s.table, job.request, job.newId, job.now);
            && s'.table == (if r.Success? then r.value else s.table)
            && 0 !in s'.pending
            && GrewInStep(e, s, s')
            && (s'.log == s.log <==> r.Failure?)
  {
    var s1 := DoBegin(e, s, 0, job.request);
    if Plan(e, job.request, ReadFor(s.table, job.request.op)).Success? {
      NextKeepsInv(e, t0, s, Begin(0, job.request));
      if Commits(e, s1, 0, job.newId, job.now) {
        AloneCommits(e, t0, s, s1, job);
      }
    }
  }

  lemma AloneCommits(e: Entity, t0: Table, s: State, s1: State, job: Job)
    requires Inv(e, t0, s1) && Commits(e, s1, 0, job.newId, job.now)
    requires s1.table == s.table && s1.log == s.log && s1.audits == s.audits
    requires 0 in s1.pending && s1.pending[0] == Writing(job.request, ReadFor(s.table, job.request.op))
    ensures var s' := DoAudit(e, DoCommit(e, s1, 0, job.newId, job.now), 0);
            && Execute(e, s.table, job.request, job.newId, job.now) == Success(s'.table)
            && 0 !in s'.pending && |s'.log| == |s.log| + 1 && GrewInStep(e, s, s')
  {
    CommitEffect(e, t0, s1, 0, job.newId, job.now);
    var s2 := DoCommit(e, s1, 0, job.newId, job.now);
    assert 0 in s2.pending && s2.pending[0] == Auditing(|s.log|);
    assert s2.log[|s.log|].read == s2.log[|s.log|].before;
  }

  lemma AuditsOfAppend(e: Entity, log: seq<Entry>, c: Entry)
    ensures AuditsOf(e, log + [c]) == AuditsOf(e, log) + [AuditOf(e, c)]
  {
    assert (log + [c])[..|log|] == log;
  }

  lemma StaleIdIsDropped(e: Entity, s: State, job: Job)
    requires 0 !in s.pending && !IsFreshFor(s.table, job.request.op, job.newId)
    ensures GrewInStep(e, s, AfterAlone(e, s, job))
  {
  }

  lemma StaysSettled(e: Entity, s: State, s': State)
    requires IsSettled(e, s) && GrewInStep(e, s, s')
    ensures IsSettled(e, Next(e, s', Abort(0)))
  {
    if s'.log != s.log {
      AuditsOfAppend(e, s.log, s'.log[|s'.log| - 1]);
    }
  }

  lemma AloneGrows(e: Entity, t0: Table, s: State, job: Job)
    requires Inv(e, t0, s) && 0 !in s.pending
    ensures GrewInStep(e, s, AfterAlone(e, s, job))
  {
    if IsFreshFor(s.table, job.request.op, job.newId) {
      AloneIsExecute(e, t0, s, job);
    } else {
      StaleIdIsDropped(e, s, job);
    }
  }

  lemma {:induction false} OneAtATimeSettles(e: Entity, t0: Table, jobs: seq<Job>)
    requires Tables.TableOk(e, t0)
    ensures var s := Run(e, Start(t0), OneAtATime(jobs)); Inv(e, t0, s) && IsSettled(e, s)
  {
    RunKeepsInv(e, t0, OneAtATime(jobs));
    if jobs != [] {
      var front := jobs[..|jobs| - 1];
      OneAtATimeSettles(e, t0, front);
      AloneRuns(e, Start(t0), OneAtATime(front), jobs[|jobs| - 1]);
      var s := Run(e, Start(t0), OneAtATime(front));
      AloneGrows(e, t0, s, jobs[|jobs| - 1]);
      StaysSettled(e, s, AfterAlone(e, s, jobs[|jobs| - 1]));
    }
  }

  /** The status changes the trail records for one record. */
  function StatusChanges(audits: seq<AuditEntry>, id: nat): seq<AuditEntry> {
    if audits == [] then []
    else
      var last := audits[|audits| - 1];
      StatusChanges(audits[..|audits| - 1], id)
        + (if last.action == "transition" && last.entityId == id then [last] else [])
  }

  /** The named statuses are joined by an edge of the graph. */
  predicate IsEdge(e: Entity, before: string, after: string) {
    && Named(before).Some? && Named(after).Some?
    && CanTransition(Transitions(e), Named(before).value, Named(after).value)
  }

  /** The entries lead from one status to another, each starting where the one before it ended, along edges. */
  ghost predicate IsPath(e: Entity, changes: seq<AuditEntry>, from: string, to: string) {
    if changes == [] then from == to
    else
      var last := changes[|changes| - 1];
      last.after == to && IsEdge(e, last.before, last.after) && IsPath(e, changes[..|changes| - 1], from, last.before)
  }

  function ChangesIn(e: Entity, history: seq<Entry>): seq<AuditEntry> {
    if history == [] then []
    else
      var last := history[|history| - 1];
      ChangesIn(e, history[..|history| - 1]) + (if last.request.op.Transition? then [AuditOf(e, last)] else [])
  }

  lemma ChangesInAppend(e: Entity, history: seq<Entry>, c: Entry)
    ensures ChangesIn(e, history + [c])
         == ChangesIn(e, history) + (if c.request.op.Transition? then [AuditOf(e, c)] else [])
  {
    assert (history + [c])[..|history|] == history;
  }

  lemma StatusChangesAppend(audits: seq<AuditEntry>, a: AuditEntry, id: nat)
    ensures StatusChanges(audits + [a], id)
         == StatusChanges(audits, id) + (if a.action == "transition" && a.entityId == id then [a] else [])
  {
    assert (audits + [a])[..|audits|] == audits;
  }

  lemma OnlyTransitionsSaySo(e: Entity, c: Entry)
    ensures AuditOf(e, c).action == "transition" <==> c.request.op.Transition?
    ensures AuditOf(e, c).entityId == c.id
  {
    assert |AuditOf(e, c).action| == 10 <==> c.request.op.Transition?;
  }

  lemma {:induction false} TrailOfRecord(e: Entity, log: seq<Entry>, id: nat)
    ensures StatusChanges(AuditsOf(e, log), id) == ChangesIn(e, HistoryOf(log, id))
  {
    if log != [] {
      var front, c := log[..|log| - 1], log[|log| - 1];
      TrailOfRecord(e, front, id);
      OnlyTransitionsSaySo(e, c);
      StatusChangesAppend(AuditsOf(e, front), AuditOf(e, c), id);
      ChangesInAppend(e, HistoryOf(front, id), c);
      assert HistoryOf(front, id) + [] == HistoryOf(front, id);
      assert ChangesIn(e, HistoryOf(front, id)) + [] == ChangesIn(e, HistoryOf(front, id));
    }
  }

  lemma PathGrows(e: Entity, changes: seq<AuditEntry>, a: AuditEntry, from: string)
    requires IsPath(e, changes, from, a.before) && IsEdge(e, a.before, a.after)
    ensures IsPath(e, changes + [a], from, a.after)
  {
    assert (changes + [a])[..|changes|] == changes;
  }

  lemma TransitionReportsEdge(e: Entity, c: Entry)
    requires EntryOk(e, c) && SawTheRow(c) && c.request.op.Transition?
    ensures var a := AuditOf(e, c);
            a.before == Label(c.before.value.status) && a.after == Label(c.after.status) && IsEdge(e, a.before, a.after)
  {
    TransitionIsEdge(e, c);
    NamedIffLabel(Label(c.before.value.status), c.before.value.status);
    NamedIffLabel(Label(c.after.status), c.after.status);
  }

  lemma CommitExtendsPath(e: Entity, front: seq<Entry>, c: Entry, from: string)
    requires EntryOk(e, c) && SawTheRow(c) && c.before.Some?
    requires IsPath(e, ChangesIn(e, front), from, Label(c.before.value.status))
    ensures IsPath(e, ChangesIn(e, front + [c]), from, Label(c.after.status))
  {
    ChangesInAppend(e, front, c);
    if c.request.op.Transition? {
      TransitionReportsEdge(e, c);
      PathGrows(e, ChangesIn(e, front), AuditOf(e, c), from);
    } else {
      assert ChangesIn(e, front) + [] == ChangesIn(e, front);
      if c.request.op.Edit? {
        EditKeepsStatus(e, c);
      }
    }
  }

  lemma CreateStartsPath(e: Entity, c: Entry)
    requires EntryOk(e, c) && c.before.None?
    ensures IsPath(e, ChangesIn(e, [c]), Label(Initial(e)), Label(c.after.status))
  {
    CreateStarts(e, c);
    assert [c][..0] == [];
  }

  lemma StepOfPath(e: Entity, front: seq<Entry>, c: Entry, origin: Option<Record>)
    requires IsTrueHistory(e, front + [c], origin)
    requires c.before.Some? ==>
               IsPath(e, ChangesIn(e, front), Label(FirstStatus(e, origin)), Label(c.before.value.status))
    ensures IsPath(e, ChangesIn(e, front + [c]), Label(FirstStatus(e, origin)), Label(c.after.status))
  {
    FrontIsTrue(e, front, c, origin);
    if c.before.None? {
      assert front == [] && origin.None?;
      assert front + [c] == [c];
      CreateStartsPath(e, c);
    } else {
      CommitExtendsPath(e, front, c, Label(FirstStatus(e, origin)));
    }
  }

  lemma {:induction false} HistoryIsPath(e: Entity, history: seq<Entry>, origin: Option<Record>)
    requires IsTrueHistory(e, history, origin) && Latest(history, origin).Some?
    ensures IsPath(e, ChangesIn(e, history), Label(FirstStatus(e, origin)), Label(Latest(history, origin).value.status))
  {
    if history != [] {
      var front, c := history[..|history| - 1], history[|history| - 1];
      FrontAndLast(history);
      FrontIsTrue(e, front, c, origin);
      if c.before.Some? {
        HistoryIsPath(e, front, origin);
      }
      StepOfPath(e, front, c, origin);
    }
  }

  /**
   Audit completeness. When requests run one at a time and no append fails, the
   transition entries of a record lead, edge by edge, from its first status to
   its present one.
   */
  lemma TrailReplaysStatus(e: Entity, t0: Table, jobs: seq<Job>, id: nat)
    requires Tables.TableOk(e, t0)
    requires id in Run(e, Start(t0), OneAtATime(jobs)).table.rows
    ensures var s := Run(e, Start(t0), OneAtATime(jobs));
            IsPath(e, StatusChanges(s.audits, id),
                   Label(FirstStatus(e, RowOf(t0, id))), Label(s.table.rows[id].rec.status))
  {
    OneAtATimeSettles(e, t0, jobs);
    var s := Run(e, Start(t0), OneAtATime(jobs));
    assert HistoryOk(t0, s, id);
    var history := HistoryOf(s.log, id);
    forall i | 0 <= i < |history| ensures EntryOk(e, history[i]) && SawTheRow(history[i]) {
      HistoryOfMembers(s.log, id, history[i]);
    }
    TrailOfRecord(e, s.log, id);
    HistoryIsPath(e, history, RowOf(t0, id));
  }
}
