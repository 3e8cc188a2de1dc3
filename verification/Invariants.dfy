/**
 What every run keeps with no assumption on clients: the table stays in order,
 every snapshot a request still holds is a past or present state of its row,
 and the commits to a record form one chain from its first state to its row.
 */
module Invariants {
  import opened Outcomes
  import opened Status
  import Text
  import opened Records
  import opened Tables
  import opened Protocol

  /** `read` is a state `row` has been in: what never changes agrees, and an equal version is the same state. */
  ghost predicate IsSnapshotOf(e: Entity, read: Record, row: Record) {
    && read.id == row.id && read.code == row.code && read.preparedBy == row.preparedBy
    && HasStatus(e, read.status)
    && read.version <= row.version
    && (read.version == row.version ==> read == row)
  }

  /** The item of a planned replacement. */
  function ItemOf(e: Entity, req: Request, read: Option<Record>): Record
    requires req.op.Edit? || req.op.Transition?
    requires Plan(e, req, read).Success?
  {
    Plan(e, req, read).value.item
  }

  ghost predicate WritingOk(e: Entity, t: Table, req: Request, read: Option<Record>) {
    && Plan(e, req, read).Success?
    && (req.op.Create? <==> read.None?)
    && (read.Some? ==> req.op.id in t.rows && IsSnapshotOf(e, read.value, t.rows[req.op.id].rec))
  }

  ghost predicate PendingOk(e: Entity, s: State) {
    forall k :: k in s.pending ==>
      match s.pending[k]
      case Writing(req, read) => WritingOk(e, s.table, req, read)
      case Auditing(commit) => commit < |s.log|
  }

  /** What a log entry says about the commit it records. */
  ghost predicate EntryOk(e: Entity, c: Entry) {
    && c.id > 0
    && Plan(e, c.request, c.read).Success?
    && if c.request.op.Create? then
         && c.read.None? && c.before.None?
         && c.after == NewRecord(e, c.request.op.code, c.request.op.input, c.request.actor).(id := c.id)
       else
         && c.id == c.request.op.id && c.read.Some? && c.before.Some?
         && IsSnapshotOf(e, c.read.value, c.before.value)
         && c.before.value.version >= 1
         && if c.request.op.Delete? then c.after == c.before.value
            else
              && c.before.value.version == c.request.op.expected
              && c.after == Overwritten(c.before.value, ItemOf(e, c.request, c.read))
  }

  ghost function RowOf(t: Table, id: nat): Option<Record> {
    if id in t.rows then Some(t.rows[id].rec) else None
  }

  ghost predicate IsDeleted(t: Table, id: nat) {
    id in t.rows && t.rows[id].deleted
  }

  /** The record after a history that began with `origin`. */
  ghost function Latest(history: seq<Entry>, origin: Option<Record>): Option<Record> {
    if history == [] then origin else Some(history[|history| - 1].after)
  }

  /** Each commit overwrites exactly what the one before it left, and nothing follows a deletion. */
  ghost predicate IsConnected(history: seq<Entry>, origin: Option<Record>) {
    && (forall i :: 0 <= i < |history| ==> history[i].before == Latest(history[..i], origin))
    && (forall i :: 0 <= i < |history| - 1 ==> !history[i].request.op.Delete?)
  }

  ghost predicate EndsDeleted(history: seq<Entry>) {
    history != [] && history[|history| - 1].request.op.Delete?
  }

  ghost predicate HistoryOk(t0: Table, s: State, id: nat) {
    var history := HistoryOf(s.log, id);
    && IsConnected(history, RowOf(t0, id))
    && Latest(history, RowOf(t0, id)) == RowOf(s.table, id)
    && (IsDeleted(s.table, id) <==> IsDeleted(t0, id) || EndsDeleted(history))
    && (IsDeleted(t0, id) ==> history == [])
  }

  ghost predicate ObservedOk(s: State) {
    forall id, v :: (id, v) in s.observed ==> id in s.table.rows && v <= s.table.rows[id].rec.version
  }

  /** The invariant of every state reached from a table `t0`. */
  ghost predicate Inv(e: Entity, t0: Table, s: State) {
    && TableOk(e, s.table)
    && PendingOk(e, s)
    && (forall i :: 0 <= i < |s.log| ==> EntryOk(e, s.log[i]))
    && (forall id: nat :: HistoryOk(t0, s, id))
    && ObservedOk(s)
  }

  /** This commit step writes. */
  predicate Commits(e: Entity, s: State, token: nat, newId: nat, now: int) {
    && token in s.pending && s.pending[token].Writing?
    && (var Writing(request, read) := s.pending[token];
        var plan := Plan(e, request, read);
        && plan.Success? && IsFreshFor(s.table, request.op, newId)
        && Apply(e, s.table, plan.value, request, newId, now).Success?)
  }

  /** The entry a commit step adds to the log. */
  function Committed(e: Entity, s: State, token: nat, newId: nat, now: int): Entry
    requires Commits(e, s, token, newId, now)
  {
    var log := DoCommit(e, s, token, newId, now).log;
    log[|log| - 1]
  }

  /** The write a request has planned is one the table can take. */
  lemma PlanIsWriteOk(e: Entity, t: Table, req: Request, read: Option<Record>, newId: nat)
    requires WritingOk(e, t, req, read) && IsFreshFor(t, req.op, newId)
    ensures WriteOk(e, t, Plan(e, req, read).value, newId)
  {
    match req.op
    case Create(code, _) =>
      Text.CanonicalIsFixed(code);
      assert |Text.Canonical(code)| == |Text.Trim(code)|;
    case Transition(_, _, target, _) => EdgesStayInside(e, read.value.status, Named(Text.Trim(target)).value);
    case _ =>
  }

  /** The revision a commit appends: none for a deletion, none for an entity without revisions. */
  function LinkOf(e: Entity, c: Entry): seq<Revision> {
    var plan := Plan(e, c.request, c.read);
    if !e.Priority? || plan.Failure? || plan.value.Remove? then []
    else [NewRevision(c.id, plan.value.item, plan.value.reason, c.request)]
  }

  /** An accepted write changes one row, to what the entry says, and the entry tells the truth about it. */
  ghost predicate RowWritten(e: Entity, t: Table, t': Table, c: Entry) {
    && EntryOk(e, c)
    && c.before == RowOf(t, c.id) && !IsDeleted(t, c.id)
    && c.id in t'.rows && t'.rows == t.rows[c.id := t'.rows[c.id]]
    && t'.rows[c.id].rec == c.after
    && (t'.rows[c.id].deleted <==> c.request.op.Delete?)
    && t'.revisions == t.revisions + LinkOf(e, c)
  }

  /** `s'` is `s` after the commit `c`, whose request held `token`. */
  ghost predicate IsCommit(e: Entity, s: State, s': State, token: nat, c: Entry) {
    && token in s.pending && s.pending[token] == Writing(c.request, c.read)
    && RowWritten(e, s.table, s'.table, c) && TableOk(e, s'.table)
    && s'.pending == s.pending[token := Auditing(|s.log|)]
    && s'.observed == s.observed + {(c.id, c.after.version)}
    && s'.log == s.log + [c]
    && s'.audits == s.audits && s'.sources == s.sources
  }

  lemma PlannedKeepsTable(e: Entity, t: Table, req: Request, read: Option<Record>, newId: nat, now: int)
    requires TableOk(e, t) && WritingOk(e, t, req, read) && IsFreshFor(t, req.op, newId)
    requires Apply(e, t, Plan(e, req, read).value, req, newId, now).Success?
    ensures TableOk(e, Apply(e, t, Plan(e, req, read).value, req, newId, now).value)
  {
    PlanIsWriteOk(e, t, req, read, newId);
    ApplyKeepsTable(e, t, Plan(e, req, read).value, req, newId, now);
  }

  lemma InsertIsWritten(e: Entity, t: Table, req: Request, newId: nat, now: int)
    requires req.op.Create? && WritingOk(e, t, req, None) && IsFreshFor(t, req.op, newId)
    requires Apply(e, t, Plan(e, req, None).value, req, newId, now).Success?
    ensures var t' := Apply(e, t, Plan(e, req, None).value, req, newId, now).value;
            newId in t'.rows && RowWritten(e, t, t', EntryFor(t, t', newId, req, now, None))
  {
  }

  lemma ReplaceEntryOk(e: Entity, req: Request, read: Record, before: Record, now: int)
    requires (req.op.Edit? || req.op.Transition?) && Plan(e, req, Some(read)).Success?
    requires IsSnapshotOf(e, read, before) && before.version == req.op.expected && before.version >= 1 && req.op.id > 0
    ensures var after := Overwritten(before, ItemOf(e, req, Some(read)));
            EntryOk(e, Entry(req.op.id, req, now, Some(read), Some(before), after))
  {
  }

  lemma ReplaceIsWritten(e: Entity, t: Table, req: Request, read: Option<Record>, newId: nat, now: int)
    requires (req.op.Edit? || req.op.Transition?) && WritingOk(e, t, req, read)
    requires req.op.id in t.rows && RowOk(e, req.op.id, t.rows[req.op.id].rec)
    requires Apply(e, t, Plan(e, req, read).value, req, newId, now).Success?
    ensures var t' := Apply(e, t, Plan(e, req, read).value, req, newId, now).value;
            req.op.id in t'.rows && RowWritten(e, t, t', EntryFor(t, t', req.op.id, req, now, read))
  {
    ReplaceEntryOk(e, req, read.value, t.rows[req.op.id].rec, now);
  }

  lemma RemoveIsWritten(e: Entity, t: Table, req: Request, read: Option<Record>, newId: nat, now: int)
    requires req.op.Delete? && WritingOk(e, t, req, read)
    requires req.op.id in t.rows && RowOk(e, req.op.id, t.rows[req.op.id].rec)
    requires Apply(e, t, Plan(e, req, read).value, req, newId, now).Success?
    ensures var t' := Apply(e, t, Plan(e, req, read).value, req, newId, now).value;
            req.op.id in t'.rows && RowWritten(e, t, t', EntryFor(t, t', req.op.id, req, now, read))
  {
  }

  lemma PlannedIsWritten(e: Entity, t: Table, req: Request, read: Option<Record>, newId: nat, now: int)
    requires TableOk(e, t) && WritingOk(e, t, req, read) && IsFreshFor(t, req.op, newId)
    requires Apply(e, t, Plan(e, req, read).value, req, newId, now).Success?
    ensures var t', id := Apply(e, t, Plan(e, req, read).value, req, newId, now).value, TargetOf(req.op, newId);
            id in t'.rows && RowWritten(e, t, t', EntryFor(t, t', id, req, now, read))
  {
    match req.op
    case Create(_, _) => InsertIsWritten(e, t, req, newId, now);
    case Delete(_) => RemoveIsWritten(e, t, req, read, newId, now);
    case _ => ReplaceIsWritten(e, t, req, read, newId, now);
  }

  lemma CommitEffect(e: Entity, t0: Table, s: State, token: nat, newId: nat, now: int)
    requires Inv(e, t0, s) && Commits(e, s, token, newId, now)
    ensures IsCommit(e, s, DoCommit(e, s, token, newId, now), token, Committed(e, s, token, newId, now))
    ensures var c := Committed(e, s, token, newId, now); c.id == TargetOf(c.request.op, newId) && c.now == now
  {
    var Writing(req, read) := s.pending[token];
    assert WritingOk(e, s.table, req, read);
    PlannedKeepsTable(e, s.table, req, read, newId, now);
    PlannedIsWritten(e, s.table, req, read, newId, now);
  }

  /** A row only moves on: what was a snapshot of it before a commit is one after. */
  lemma CommitMovesOn(e: Entity, c: Entry, read: Record)
    requires EntryOk(e, c) && c.before.Some? && IsSnapshotOf(e, read, c.before.value)
    ensures IsSnapshotOf(e, read, c.after)
  {
  }

  lemma CommitKeepsWriting(e: Entity, t: Table, t': Table, c: Entry, req: Request, read: Option<Record>)
    requires RowWritten(e, t, t', c) && WritingOk(e, t, req, read)
    ensures WritingOk(e, t', req, read)
  {
    if read.Some? && req.op.id == c.id {
      CommitMovesOn(e, c, read.value);
    }
  }

  lemma CommitKeepsPending(e: Entity, s: State, s': State, token: nat, c: Entry)
    requires IsCommit(e, s, s', token, c) && PendingOk(e, s)
    ensures PendingOk(e, s')
  {
    forall k | k in s.pending && s.pending[k].Writing?
      ensures WritingOk(e, s'.table, s.pending[k].request, s.pending[k].read)
    {
      CommitKeepsWriting(e, s.table, s'.table, c, s.pending[k].request, s.pending[k].read);
    }
  }

  lemma ConnectedGrows(history: seq<Entry>, c: Entry, origin: Option<Record>)
    requires IsConnected(history, origin) && c.before == Latest(history, origin) && !EndsDeleted(history)
    ensures IsConnected(history + [c], origin)
  {
    var longer := history + [c];
    forall i | 0 <= i < |longer| ensures longer[i].before == Latest(longer[..i], origin) {
      assert longer[..i] == history[..i];
      assert history[..|history|] == history;
    }
  }

  lemma CommitKeepsHistory(e: Entity, t0: Table, s: State, s': State, token: nat, c: Entry, id: nat)
    requires IsCommit(e, s, s', token, c) && HistoryOk(t0, s, id)
    ensures HistoryOk(t0, s', id)
  {
    HistoryOfAppend(s.log, c, id);
    if id == c.id {
      var history := HistoryOf(s.log, id);
      assert !EndsDeleted(history);
      ConnectedGrows(history, c, RowOf(t0, id));
    } else {
      assert HistoryOf(s.log, id) + [] == HistoryOf(s.log, id);
    }
  }

  lemma CommitRaisesVersion(e: Entity, c: Entry)
    requires EntryOk(e, c) && c.before.Some?
    ensures c.before.value.version <= c.after.version
  {
  }

  lemma CommitKeepsObserved(e: Entity, s: State, s': State, token: nat, c: Entry)
    requires IsCommit(e, s, s', token, c) && ObservedOk(s)
    ensures ObservedOk(s')
  {
    forall id, v | (id, v) in s'.observed ensures id in s'.table.rows && v <= s'.table.rows[id].rec.version {
      if id == c.id && (id, v) in s.observed {
        CommitRaisesVersion(e, c);
      }
    }
  }

  lemma CommitKeepsInv(e: Entity, t0: Table, s: State, s': State, token: nat, c: Entry)
    requires Inv(e, t0, s) && IsCommit(e, s, s', token, c)
    ensures Inv(e, t0, s')
  {
    CommitKeepsPending(e, s, s', token, c);
    CommitKeepsObserved(e, s, s', token, c);
    forall id: nat ensures HistoryOk(t0, s', id) {
      assert HistoryOk(t0, s, id);
      CommitKeepsHistory(e, t0, s, s', token, c, id);
    }
  }

  /** A request reads the row as it is. */
  lemma BeginIsOk(e: Entity, t: Table, req: Request)
    requires TableOk(e, t) && Plan(e, req, ReadFor(t, req.op)).Success?
    ensures WritingOk(e, t, req, ReadFor(t, req.op))
  {
  }

  lemma BeginKeepsPending(e: Entity, s: State, token: nat, request: Request)
    requires TableOk(e, s.table) && PendingOk(e, s)
    ensures PendingOk(e, DoBegin(e, s, token, request))
  {
    if Plan(e, request, ReadFor(s.table, request.op)).Success? {
      BeginIsOk(e, s.table, request);
    }
  }

  /** A step that is not a successful write leaves table and log as they were. */
  lemma OnlyCommitsWrite(e: Entity, s: State, step: Step)
    requires !(step.Commit? && Commits(e, s, step.token, step.newId, step.now))
    ensures Next(e, s, step).table == s.table && Next(e, s, step).log == s.log
  {
  }

  lemma OtherStepKeepsPending(e: Entity, s: State, step: Step)
    requires TableOk(e, s.table) && PendingOk(e, s) && ObservedOk(s)
    requires !(step.Commit? && Commits(e, s, step.token, step.newId, step.now))
    ensures PendingOk(e, Next(e, s, step)) && ObservedOk(Next(e, s, step))
  {
    if step.Begin? {
      BeginKeepsPending(e, s, step.token, step.request);
    }
  }

  lemma NextKeepsInv(e: Entity, t0: Table, s: State, step: Step)
    requires Inv(e, t0, s)
    ensures Inv(e, t0, Next(e, s, step))
  {
    var s' := Next(e, s, step);
    if step.Commit? && Commits(e, s, step.token, step.newId, step.now) {
      CommitEffect(e, t0, s, step.token, step.newId, step.now);
      CommitKeepsInv(e, t0, s, s', step.token, Committed(e, s, step.token, step.newId, step.now));
    } else {
      OnlyCommitsWrite(e, s, step);
      OtherStepKeepsPending(e, s, step);
      forall id: nat ensures HistoryOk(t0, s', id) {
        assert HistoryOk(t0, s, id);
      }
    }
  }

  lemma StartIsOk(e: Entity, t0: Table)
    requires TableOk(e, t0)
    ensures Inv(e, t0, Start(t0))
  {
  }

  lemma {:induction false} RunFromKeepsInv(e: Entity, t0: Table, s: State, steps: seq<Step>)
    requires Inv(e, t0, s)
    ensures Inv(e, t0, Run(e, s, steps))
  {
    if steps != [] {
      var front := steps[..|steps| - 1];
      RunFromKeepsInv(e, t0, s, front);
      NextKeepsInv(e, t0, Run(e, s, front), steps[|steps| - 1]);
    }
  }

  /** Every reachable state of every interleaving satisfies the invariant, whatever the clients do. */
  lemma RunKeepsInv(e: Entity, t0: Table, steps: seq<Step>)
    requires TableOk(e, t0)
    ensures Inv(e, t0, Run(e, Start(t0), steps))
  {
    StartIsOk(e, t0);
    RunFromKeepsInv(e, t0, Start(t0), steps);
  }

  /** The commit a step makes, if it makes one. */
  function WrittenBy(e: Entity, s: State, step: Step): Option<Entry> {
    if step.Commit? && Commits(e, s, step.token, step.newId, step.now) then
      Some(Committed(e, s, step.token, step.newId, step.now))
    else None
  }

  /** A step either commits its request or leaves table and log alone. */
  lemma StepEffect(e: Entity, t0: Table, s: State, step: Step)
    requires Inv(e, t0, s)
    ensures var c, s' := WrittenBy(e, s, step), Next(e, s, step);
            if c.Some? then step.Commit? && IsCommit(e, s, s', step.token, c.value)
            else s'.table == s.table && s'.log == s.log
  {
    if WrittenBy(e, s, step).Some? {
      CommitEffect(e, t0, s, step.token, step.newId, step.now);
    } else {
      OnlyCommitsWrite(e, s, step);
    }
  }

  /** The unique (decision, version) index refuses no write of any run. */
  lemma RevisionIndexNeverRefuses(e: Entity, t0: Table, steps: seq<Step>, token: nat, newId: nat, now: int)
    requires TableOk(e, t0)
    requires var s := Run(e, Start(t0), steps);
             token in s.pending && s.pending[token].Writing? && IsFreshFor(s.table, s.pending[token].request.op, newId)
    ensures var s := Run(e, Start(t0), steps);
            var Writing(req, read) := s.pending[token];
            && Plan(e, req, read).Success?
            && var r := Apply(e, s.table, Plan(e, req, read).value, req, newId, now);
               r.Failure? ==> r.error != DuplicateRevision
  {
    RunKeepsInv(e, t0, steps);
    var s := Run(e, Start(t0), steps);
    var Writing(req, read) := s.pending[token];
    assert WritingOk(e, s.table, req, read);
    PlanIsWriteOk(e, s.table, req, read, newId);
    ApplyKeepsTable(e, s.table, Plan(e, req, read).value, req, newId, now);
  }
}
