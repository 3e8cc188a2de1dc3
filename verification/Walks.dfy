/**
 The status history of a record under disciplined clients: a walk of its
 entity's graph from where it started, one move per status change, edits
 staying put, so that its version bounds how far its status has come.
 */
module Walks {
  import opened Outcomes
  import opened Status
  import opened Distance
  import opened Records
  import Tables
  import opened Protocol
  import opened Invariants
  import opened Discipline

  /** The commits of a record, each true, connected, and guarded on the row it overwrote. */
  ghost predicate IsTrueHistory(e: Entity, history: seq<Entry>, origin: Option<Record>) {
    && IsConnected(history, origin)
    && forall i :: 0 <= i < |history| ==> EntryOk(e, history[i]) && SawTheRow(history[i])
  }

  /** The statuses a record went through; an edit or deletion adds none. */
  ghost function StatusPath(history: seq<Entry>, origin: Option<Record>): seq<Status> {
    if history == [] then
      if origin.Some? then [origin.value.status] else []
    else
      var front, last := history[..|history| - 1], history[|history| - 1];
      StatusPath(front, origin)
        + (if last.request.op.Create? || last.request.op.Transition? then [last.after.status] else [])
  }

  ghost function CountTransitions(history: seq<Entry>): nat {
    if history == [] then 0
    else CountTransitions(history[..|history| - 1]) + (if history[|history| - 1].request.op.Transition? then 1 else 0)
  }

  ghost function CountEdits(history: seq<Entry>): nat {
    if history == [] then 0
    else CountEdits(history[..|history| - 1]) + (if history[|history| - 1].request.op.Edit? then 1 else 0)
  }

  ghost function FirstStatus(e: Entity, origin: Option<Record>): Status {
    if origin.Some? then origin.value.status else Initial(e)
  }

  ghost function FirstVersion(origin: Option<Record>): nat {
    if origin.Some? then origin.value.version else 1
  }

  lemma TransitionIsEdge(e: Entity, c: Entry)
    requires EntryOk(e, c) && SawTheRow(c) && c.request.op.Transition?
    ensures CanTransition(Transitions(e), c.before.value.status, c.after.status)
    ensures c.after.version == c.before.value.version + 1
  {
  }

  lemma EditKeepsStatus(e: Entity, c: Entry)
    requires EntryOk(e, c) && SawTheRow(c) && c.request.op.Edit?
    ensures c.after.status == c.before.value.status && c.after.version == c.before.value.version + 1
  {
  }

  lemma CreateStarts(e: Entity, c: Entry)
    requires EntryOk(e, c) && c.before.None?
    ensures c.request.op.Create? && c.after.status == Initial(e) && c.after.version == 1
  {
  }

  /** What `path` says about a history that has led to `rec`. */
  ghost predicate IsAccount(e: Entity, history: seq<Entry>, origin: Option<Record>, rec: Record) {
    var path := StatusPath(history, origin);
    && IsWalk(e, path)
    && path[0] == FirstStatus(e, origin) && path[|path| - 1] == rec.status
    && |path| - 1 == CountTransitions(history)
    && rec.version == FirstVersion(origin) + CountTransitions(history) + CountEdits(history)
  }

  lemma WalkGrows(e: Entity, path: seq<Status>, next: Status)
    requires IsWalk(e, path) && CanTransition(Transitions(e), path[|path| - 1], next)
    ensures IsWalk(e, path + [next])
  {
  }

  lemma AccountUnfolds(front: seq<Entry>, c: Entry, origin: Option<Record>)
    requires !c.request.op.Create?
    ensures StatusPath(front + [c], origin)
         == StatusPath(front, origin) + (if c.request.op.Transition? then [c.after.status] else [])
    ensures CountTransitions(front + [c]) == CountTransitions(front) + (if c.request.op.Transition? then 1 else 0)
    ensures CountEdits(front + [c]) == CountEdits(front) + (if c.request.op.Edit? then 1 else 0)
  {
    assert (front + [c])[..|front|] == front;
  }

  lemma AccountGrows(e: Entity, front: seq<Entry>, c: Entry, origin: Option<Record>)
    requires EntryOk(e, c) && SawTheRow(c) && c.before.Some?
    requires IsAccount(e, front, origin, c.before.value)
    ensures IsAccount(e, front + [c], origin, c.after)
  {
    AccountUnfolds(front, c, origin);
    var path := StatusPath(front, origin);
    if c.request.op.Transition? {
      TransitionIsEdge(e, c);
      WalkGrows(e, path, c.after.status);
    } else {
      assert path + [] == path;
      if c.request.op.Edit? {
        EditKeepsStatus(e, c);
      }
    }
  }

  lemma FrontIsTrue(e: Entity, front: seq<Entry>, c: Entry, origin: Option<Record>)
    requires IsTrueHistory(e, front + [c], origin)
    ensures IsTrueHistory(e, front, origin)
    ensures EntryOk(e, c) && SawTheRow(c) && c.before == Latest(front, origin)
  {
    var history := front + [c];
    forall i | 0 <= i < |front|
      ensures front[i].before == Latest(front[..i], origin) && EntryOk(e, front[i]) && SawTheRow(front[i])
    {
      assert front[..i] == history[..i] && front[i] == history[i];
    }
    assert history[|front|] == c && history[..|front|] == front;
    forall i | 0 <= i < |front| - 1 ensures !front[i].request.op.Delete? {
      assert front[i] == history[i];
    }
  }

  lemma CreatedAccount(e: Entity, c: Entry)
    requires EntryOk(e, c) && c.before.None?
    ensures IsAccount(e, [c], None, c.after)
  {
    CreateStarts(e, c);
    assert [c][..0] == [];
  }

  lemma FrontAndLast(history: seq<Entry>)
    requires history != []
    ensures history == history[..|history| - 1] + [history[|history| - 1]]
  {
  }

  lemma StepOfAccount(e: Entity, front: seq<Entry>, c: Entry, origin: Option<Record>)
    requires IsTrueHistory(e, front + [c], origin)
    requires c.before.Some? ==> IsAccount(e, front, origin, c.before.value)
    ensures IsAccount(e, front + [c], origin, c.after)
  {
    FrontIsTrue(e, front, c, origin);
    if c.before.None? {
      assert front == [] && origin.None?;
      assert front + [c] == [c];
      CreatedAccount(e, c);
    } else {
      AccountGrows(e, front, c, origin);
    }
  }

  lemma {:induction false} HistoryIsWalk(e: Entity, history: seq<Entry>, origin: Option<Record>)
    requires IsTrueHistory(e, history, origin) && Latest(history, origin).Some?
    requires origin.Some? ==> HasStatus(e, origin.value.status)
    ensures IsAccount(e, history, origin, Latest(history, origin).value)
  {
    if history != [] {
      var front, c := history[..|history| - 1], history[|history| - 1];
      FrontAndLast(history);
      FrontIsTrue(e, front, c, origin);
      if c.before.Some? {
        HistoryIsWalk(e, front, origin);
      }
      StepOfAccount(e, front, c, origin);
    }
  }

  /**
   Status walks. In every interleaving whose edits and status changes named the
   version they read (any of disciplined clients, for one) the statuses of a record,
   from its first (the initial status, if it was created in the run) to its
   present one, are a walk of the entity's graph with one move per successful
   status change, and its version counts the changes and edits.
   */
  lemma StatusesAreWalks(e: Entity, t0: Table, steps: seq<Step>, id: nat)
    requires Tables.TableOk(e, t0) && NamedTheirVersions(Run(e, Start(t0), steps).log, 0)
    requires id in Run(e, Start(t0), steps).table.rows
    ensures var s := Run(e, Start(t0), steps);
            && IsTrueHistory(e, HistoryOf(s.log, id), RowOf(t0, id))
            && IsAccount(e, HistoryOf(s.log, id), RowOf(t0, id), s.table.rows[id].rec)
  {
    RunKeepsInv(e, t0, steps);
    var s := Run(e, Start(t0), steps);
    assert HistoryOk(t0, s, id);
    var history := HistoryOf(s.log, id);
    forall i | 0 <= i < |history| ensures EntryOk(e, history[i]) && SawTheRow(history[i]) {
      HistoryOfMembers(s.log, id, history[i]);
      NamedIsSaw(e, history[i]);
    }
    if id in t0.rows {
      assert Tables.RowOk(e, id, t0.rows[id].rec);
    }
    HistoryIsWalk(e, history, RowOf(t0, id));
  }

  /** A bridge's, inspection's or defect's version bounds the distance its status has come. */
  lemma VersionCoversDistance(e: Entity, t0: Table, steps: seq<Step>, id: nat)
    requires IsCyclic(e) && Tables.TableOk(e, t0)
    requires NamedTheirVersions(Run(e, Start(t0), steps).log, 0)
    requires id in Run(e, Start(t0), steps).table.rows
    ensures var rec := Run(e, Start(t0), steps).table.rows[id].rec;
            var first := FirstStatus(e, RowOf(t0, id));
            && HasStatus(e, first) && HasStatus(e, rec.status)
            && rec.version >= FirstVersion(RowOf(t0, id)) + Moves(Place(e, first), Place(e, rec.status))
  {
    StatusesAreWalks(e, t0, steps, id);
    WalkIsNoShorter(e, StatusPath(HistoryOf(Run(e, Start(t0), steps).log, id), RowOf(t0, id)));
  }
}
