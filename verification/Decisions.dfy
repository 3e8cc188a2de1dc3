/**
 Priority decisions over whole runs: final ones never change, revisions are a
 faithful record of every version, and nobody finalizes a decision they prepared.
 */
module Decisions {
  import opened Outcomes
  import opened Status
  import Text
  import opened Records
  import opened Tables
  import opened Protocol
  import opened Invariants
  import opened Evolution
  import opened Discipline
  import opened Moments

  // ----- A final decision is final -----

  /** A commit whose guards saw a final decision can only be a deletion. */
  lemma FinalRefusesChange(c: Entry)
    requires EntryOk(Priority, c) && SawTheRow(c) && c.before.Some? && IsFinal(c.before.value.status)
    ensures c.request.op.Delete? && c.after == c.before.value && LinkOf(Priority, c) == []
  {
  }

  lemma CommitKeepsFinal(t: Table, t': Table, c: Entry, id: nat)
    requires RowWritten(Priority, t, t', c) && SawTheRow(c)
    requires id in t.rows && IsFinal(t.rows[id].rec.status)
    ensures id in t'.rows && t'.rows[id].rec == t.rows[id].rec
    ensures RevisionsOf(t'.revisions, id) == RevisionsOf(t.revisions, id)
  {
    LinksOfOther(Priority, t, c, id);
    if c.id == id {
      FinalRefusesChange(c);
    }
    assert RevisionsOf(t'.revisions, id) == RevisionsOf(t.revisions, id) + [];
  }

  /**
   Once a decision is final, no later step changes its record or its revisions,
   in any run whose later edits and status changes named the version they read.
   */
  lemma {:induction false} FinalIsForever(t0: Table, s: State, steps: seq<Step>, id: nat)
    requires Inv(Priority, t0, s) && NamedTheirVersions(Run(Priority, s, steps).log, |s.log|)
    requires id in s.table.rows && IsFinal(s.table.rows[id].rec.status)
    ensures var s' := Run(Priority, s, steps);
            && id in s'.table.rows && s'.table.rows[id].rec == s.table.rows[id].rec
            && RevisionsOf(s'.table.revisions, id) == RevisionsOf(s.table.revisions, id)
  {
    if steps != [] {
      var front, step := steps[..|steps| - 1], steps[|steps| - 1];
      LastStepSaw(Priority, t0, s, steps, |s.log|);
      FinalIsForever(t0, s, front, id);
      var mid := Run(Priority, s, front);
      if WrittenBy(Priority, mid, step).Some? {
        CommitKeepsFinal(mid.table, Run(Priority, s, steps).table, WrittenBy(Priority, mid, step).value, id);
      }
    }
  }

  /** Disciplined clients never change a final decision. */
  lemma DisciplinedKeepFinal(t0: Table, s: State, steps: seq<Step>, id: nat)
    requires Inv(Priority, t0, s) && DisciplineOk(s) && IsDisciplinedRun(Priority, s, steps)
    requires id in s.table.rows && IsFinal(s.table.rows[id].rec.status)
    ensures var s' := Run(Priority, s, steps);
            && id in s'.table.rows && s'.table.rows[id].rec == s.table.rows[id].rec
            && RevisionsOf(s'.table.revisions, id) == RevisionsOf(s.table.revisions, id)
  {
    DisciplinedRunNames(Priority, t0, s, steps);
    FinalIsForever(t0, s, steps, id);
  }

  /**
   With no assumption on clients: a final decision is overwritten only by a
   request that named a version newer than the one it read.
   */
  lemma FinalYieldsOnlyToGuesses(t0: Table, s: State, token: nat, newId: nat, now: int)
    requires Inv(Priority, t0, s) && Commits(Priority, s, token, newId, now)
    requires IsVersioned(s.pending[token].request.op)
    requires var op := s.pending[token].request.op; op.id in s.table.rows && IsFinal(s.table.rows[op.id].rec.status)
    ensures s.pending[token].read.Some? && s.pending[token].read.value.version < s.pending[token].request.op.expected
  {
    GuardsSawTheRowIff(Priority, t0, s, token, newId, now);
    CommitEffect(Priority, t0, s, token, newId, now);
    var c := Committed(Priority, s, token, newId, now);
    if c.read == c.before {
      FinalRefusesChange(c);
    }
  }

  /** `draft` any number of times, then at most one final status. */
  ghost predicate IsDraftsThenFinal(chain: seq<Revision>) {
    && (forall i :: 0 <= i < |chain| - 1 ==> chain[i].status == Draft)
    && (forall i :: 0 <= i < |chain| ==> chain[i].status == Draft || IsFinal(chain[i].status))
  }

  ghost predicate AllDraftsThenFinal(t: Table) {
    forall id :: id in t.rows ==> IsDraftsThenFinal(RevisionsOf(t.revisions, id))
  }

  lemma EditIsOfDraft(c: Entry)
    requires EntryOk(Priority, c) && c.request.op.Edit?
    ensures c.read.value.status == Draft && c.after.status == Draft
  {
  }

  lemma TransitionIsOfDraft(c: Entry)
    requires EntryOk(Priority, c) && c.request.op.Transition?
    ensures c.read.value.status == Draft && IsFinal(c.after.status)
  {
    DecisionEdges(c.read.value.status, c.after.status);
  }

  lemma LinkHasStatus(c: Entry)
    requires EntryOk(Priority, c) && !c.request.op.Delete?
    ensures |LinkOf(Priority, c)| == 1 && LinkOf(Priority, c)[0].status == c.after.status
  {
  }

  /** A commit that appends a revision starts from nothing or from a draft. */
  lemma ChangesOnlyDrafts(c: Entry)
    requires EntryOk(Priority, c) && SawTheRow(c) && !c.request.op.Delete?
    ensures c.before.Some? ==> c.before.value.status == Draft
    ensures c.after.status == Draft || IsFinal(c.after.status)
  {
    if c.request.op.Edit? {
      EditIsOfDraft(c);
    } else if c.request.op.Transition? {
      TransitionIsOfDraft(c);
    }
  }

  lemma DraftsGrow(chain: seq<Revision>, link: seq<Revision>)
    requires IsDraftsThenFinal(chain) && (chain != [] ==> chain[|chain| - 1].status == Draft)
    requires |link| == 1 && (link[0].status == Draft || IsFinal(link[0].status))
    ensures IsDraftsThenFinal(chain + link)
  {
  }

  lemma LinkExtendsDrafts(chain: seq<Revision>, c: Entry)
    requires EntryOk(Priority, c) && SawTheRow(c) && IsDraftsThenFinal(chain)
    requires chain != [] ==> c.before.Some? && chain[|chain| - 1].status == c.before.value.status
    ensures IsDraftsThenFinal(chain + LinkOf(Priority, c))
  {
    if c.request.op.Delete? {
      DeleteHasNoLink(c);
      assert chain + [] == chain;
    } else {
      LinkHasStatus(c);
      ChangesOnlyDrafts(c);
      DraftsGrow(chain, LinkOf(Priority, c));
    }
  }

  lemma DeleteHasNoLink(c: Entry)
    requires c.request.op.Delete?
    ensures LinkOf(Priority, c) == []
  {
  }

  /** A commit that appends a revision appends it to drafts. */
  lemma CommitExtendsDrafts(t: Table, t': Table, c: Entry, id: nat)
    requires RowWritten(Priority, t, t', c) && SawTheRow(c)
    requires HasChain(t, id) && IsDraftsThenFinal(RevisionsOf(t.revisions, id))
    ensures IsDraftsThenFinal(RevisionsOf(t'.revisions, id))
  {
    var chain := RevisionsOf(t.revisions, id);
    LinksOfOther(Priority, t, c, id);
    if c.id == id {
      assert chain != [] ==> c.before.Some? && chain[|chain| - 1].status == c.before.value.status;
      LinkExtendsDrafts(chain, c);
    } else {
      assert RevisionsOf(t'.revisions, id) == chain + [] == chain;
    }
  }

  /**
   In any run whose edits and status changes named the version they read, every
   decision's revisions are drafts followed by at most one final status.
   */
  lemma {:induction false} RevisionsAreDraftsThenFinal(t0: Table, steps: seq<Step>)
    requires TableOk(Priority, t0) && AllDraftsThenFinal(t0)
    requires NamedTheirVersions(Run(Priority, Start(t0), steps).log, 0)
    ensures AllDraftsThenFinal(Run(Priority, Start(t0), steps).table)
  {
    if steps != [] {
      var front, step := steps[..|steps| - 1], steps[|steps| - 1];
      StartIsOk(Priority, t0);
      LastStepSaw(Priority, t0, Start(t0), steps, 0);
      RevisionsAreDraftsThenFinal(t0, front);
      var s, s' := Run(Priority, Start(t0), front), Run(Priority, Start(t0), steps);
      if WrittenBy(Priority, s, step).Some? {
        forall id | id in s'.table.rows ensures IsDraftsThenFinal(RevisionsOf(s'.table.revisions, id)) {
          assert HasChain(s.table, id);
          CommitExtendsDrafts(s.table, s'.table, WrittenBy(Priority, s, step).value, id);
        }
      }
    }
  }

  /** The seeded decisions satisfy what `RevisionsAreDraftsThenFinal` asks of a first table. */
  lemma SeedsAreDraftsThenFinal(a: Fields, b: Fields, c: Fields, snapshot: Record, now: int)
    ensures AllDraftsThenFinal(SeededDecisions(a, b, c, snapshot, now))
  {
    var t := SeededDecisions(a, b, c, snapshot, now);
    forall id | id in t.rows ensures IsDraftsThenFinal(RevisionsOf(t.revisions, id)) {
      FiveRevisions(t.revisions, id);
    }
  }

  // ----- Revisions record every version -----

  /**
   Gap-free history, with no assumption on clients. In every reachable state the
   revisions of a decision are numbered 1 to its version, once each, and the
   last one carries the row's status and evidence.
   */
  lemma RevisionsAreGapFree(t0: Table, steps: seq<Step>, id: nat)
    requires TableOk(Priority, t0)
    ensures var t := Run(Priority, Start(t0), steps).table;
            if id in t.rows then IsChain(RevisionsOf(t.revisions, id), t.rows[id].rec)
            else RevisionsOf(t.revisions, id) == []
  {
    RunKeepsInv(Priority, t0, steps);
    assert HasChain(Run(Priority, Start(t0), steps).table, id);
  }

  /** The snapshot of version `v` is the record itself; version 1 is saved before the record has an id. */
  ghost predicate IsSavedAs(rec: Record, r: Revision) {
    r.snapshot == if rec.version == 1 then rec.(id := 0) else rec
  }

  ghost predicate LastIsSaved(t: Table, id: nat) {
    var chain := RevisionsOf(t.revisions, id);
    id in t.rows && chain != [] && IsSavedAs(t.rows[id].rec, chain[|chain| - 1])
  }

  lemma LinkSavesRecord(c: Entry)
    requires EntryOk(Priority, c) && !c.request.op.Delete?
    ensures |LinkOf(Priority, c)| == 1 && IsSavedAs(c.after, LinkOf(Priority, c)[0])
  {
  }

  lemma CommitSavesRecord(t: Table, t': Table, c: Entry, id: nat)
    requires RowWritten(Priority, t, t', c) && id in t'.rows
    requires c.id != id || c.request.op.Delete? ==> LastIsSaved(t, id)
    ensures LastIsSaved(t', id)
  {
    var chain := RevisionsOf(t.revisions, id);
    LinksOfOther(Priority, t, c, id);
    assert chain + [] == chain;
    if c.id == id {
      if c.request.op.Delete? {
        DeleteHasNoLink(c);
      } else {
        LinkSavesRecord(c);
      }
    } else {
      assert t'.rows[id] == t.rows[id];
    }
  }

  /** The record as it stands in `t` was written after `t0`. */
  ghost predicate IsWrittenSince(t0: Table, t: Table, id: nat) {
    id in t.rows && (id in t0.rows ==> t0.rows[id].rec.version < t.rows[id].rec.version)
  }

  lemma {:induction false} RunSavesRecords(t0: Table, steps: seq<Step>, id: nat)
    requires TableOk(Priority, t0) && IsWrittenSince(t0, Run(Priority, Start(t0), steps).table, id)
    ensures LastIsSaved(Run(Priority, Start(t0), steps).table, id)
  {
    var front, step := steps[..|steps| - 1], steps[|steps| - 1];
    RunKeepsInv(Priority, t0, front);
    var s := Run(Priority, Start(t0), front);
    StepEffect(Priority, t0, s, step);
    if IsWrittenSince(t0, s.table, id) {
      RunSavesRecords(t0, front, id);
    }
    if WrittenBy(Priority, s, step).Some? {
      CommitSavesRecord(s.table, Next(Priority, s, step).table, WrittenBy(Priority, s, step).value, id);
    }
  }

  /** The history `chain` holds `rec` as its version says. */
  ghost predicate IsRecorded(rec: Record, chain: seq<Revision>) {
    && 1 <= rec.version <= |chain|
    && (var r := chain[rec.version - 1];
        r.version == rec.version && r.status == rec.status && r.evidence == rec.fields.evidence && IsSavedAs(rec, r))
  }

  lemma LastIsRecorded(rec: Record, chain: seq<Revision>, longer: seq<Revision>)
    requires IsChain(chain, rec) && IsSavedAs(rec, chain[|chain| - 1]) && IsPrefix(chain, longer)
    ensures IsRecorded(rec, longer)
  {
    assert longer[..|chain|][|chain| - 1] == chain[|chain| - 1];
  }

  lemma SavedIsRecorded(t: Table, later: Table, id: nat)
    requires HasChain(t, id) && LastIsSaved(t, id) && MovesOn(Priority, t, later, id)
    ensures IsRecorded(t.rows[id].rec, RevisionsOf(later.revisions, id))
  {
    LastIsRecorded(t.rows[id].rec, RevisionsOf(t.revisions, id), RevisionsOf(later.revisions, id));
  }

  /**
   Snapshot replay, with no assumption on clients. Whenever in a run a decision
   is at a version v written in it, the snapshot of its revision v, as it stands
   at the end of the run, is the record as it was then.
   */
  lemma SnapshotsReplay(t0: Table, steps: seq<Step>, k: nat, id: nat)
    requires TableOk(Priority, t0) && k <= |steps|
    requires IsWrittenSince(t0, Run(Priority, Start(t0), steps[..k]).table, id)
    ensures IsRecorded(Run(Priority, Start(t0), steps[..k]).table.rows[id].rec,
                       RevisionsOf(Run(Priority, Start(t0), steps).table.revisions, id))
  {
    var s := Run(Priority, Start(t0), steps[..k]);
    RunKeepsInv(Priority, t0, steps[..k]);
    RunSavesRecords(t0, steps[..k], id);
    assert HasChain(s.table, id);
    RunSplits(Priority, Start(t0), steps, k);
    RunMovesOn(Priority, t0, s, steps[k..], id);
    SavedIsRecorded(s.table, Run(Priority, Start(t0), steps).table, id);
  }

  // ----- Separation of duty -----

  /** Commit `c` wrote revision `r`. */
  ghost predicate Wrote(c: Entry, r: Revision) {
    LinkOf(Priority, c) == [r]
  }

  ghost predicate RevisionsAreLogged(t0: Table, s: State) {
    forall r :: r in s.table.revisions && r !in t0.revisions ==> exists j :: 0 <= j < |s.log| && Wrote(s.log[j], r)
  }

  lemma {:induction false} RunLogsRevisions(t0: Table, steps: seq<Step>)
    requires TableOk(Priority, t0)
    ensures RevisionsAreLogged(t0, Run(Priority, Start(t0), steps))
  {
    if steps != [] {
      var front, step := steps[..|steps| - 1], steps[|steps| - 1];
      RunLogsRevisions(t0, front);
      RunKeepsInv(Priority, t0, front);
      var s, s' := Run(Priority, Start(t0), front), Run(Priority, Start(t0), steps);
      StepEffect(Priority, t0, s, step);
      if WrittenBy(Priority, s, step).Some? {
        forall r | r in s'.table.revisions && r !in t0.revisions
          ensures exists j :: 0 <= j < |s'.log| && Wrote(s'.log[j], r)
        {
          if r in s.table.revisions {
            var j :| 0 <= j < |s.log| && Wrote(s.log[j], r);
            assert Wrote(s'.log[j], r);
          } else {
            assert Wrote(s'.log[|s.log|], r);
          }
        }
      }
    }
  }

  /** A revision beyond those of the first table is not among them. */
  lemma NewRevisionIsNew(t0: Table, t: Table, id: nat, i: nat)
    requires HasChain(t0, id) && HasChain(t, id)
    requires |RevisionsOf(t0.revisions, id)| <= i < |RevisionsOf(t.revisions, id)|
    ensures RevisionsOf(t.revisions, id)[i] !in t0.revisions
  {
    var r := RevisionsOf(t.revisions, id)[i];
    RevisionsOfMembers(t.revisions, id, r);
    RevisionsOfMembers(t0.revisions, id, r);
  }

  /** Every revision of a decision that the first table did not have was written by a logged commit to that decision. */
  lemma RevisionHasCommit(t0: Table, steps: seq<Step>, id: nat, i: nat) returns (j: nat)
    requires TableOk(Priority, t0)
    requires |RevisionsOf(t0.revisions, id)| <= i < |RevisionsOf(Run(Priority, Start(t0), steps).table.revisions, id)|
    ensures var s := Run(Priority, Start(t0), steps);
            && j < |s.log| && EntryOk(Priority, s.log[j]) && s.log[j].id == id
            && Wrote(s.log[j], RevisionsOf(s.table.revisions, id)[i])
            && id in s.table.rows && s.log[j].after.preparedBy == s.table.rows[id].rec.preparedBy
  {
    var s := Run(Priority, Start(t0), steps);
    var r := RevisionsOf(s.table.revisions, id)[i];
    RunKeepsInv(Priority, t0, steps);
    assert HasChain(t0, id) && HasChain(s.table, id);
    NewRevisionIsNew(t0, s.table, id, i);
    RevisionsOfMembers(s.table.revisions, id, r);
    RunLogsRevisions(t0, steps);
    j :| 0 <= j < |s.log| && Wrote(s.log[j], r);
    RunKeepsLogPast(Priority, t0, steps);
  }

  /** Who may write one: the preparer creates, the preparer or an admin edits, another reviewer or admin finalizes. */
  ghost predicate IsAuthorized(c: Entry, r: Revision, preparedBy: string) {
    && r.actor == c.request.actor && r.requestId == c.request.requestId
    && if r.version == 1 then c.request.op.Create? && r.status == Draft && r.actor == preparedBy
       else if r.status == Draft then c.request.op.Edit? && (r.actor == preparedBy || c.request.role == Admin)
       else
         c.request.op.Transition? && IsFinal(r.status) && r.actor != preparedBy
         && (c.request.role == Reviewer || c.request.role == Admin)
  }

  lemma CreateIsAuthorized(c: Entry, r: Revision)
    requires EntryOk(Priority, c) && Wrote(c, r) && c.request.op.Create?
    ensures r.version == 1 && IsAuthorized(c, r, c.after.preparedBy)
  {
  }

  lemma EditIsAuthorized(c: Entry, r: Revision)
    requires EntryOk(Priority, c) && Wrote(c, r) && c.request.op.Edit?
    ensures r.version > 1 && IsAuthorized(c, r, c.after.preparedBy)
  {
    EditIsOfDraft(c);
  }

  lemma TransitionIsAuthorized(c: Entry, r: Revision)
    requires EntryOk(Priority, c) && Wrote(c, r) && c.request.op.Transition?
    ensures r.version > 1 && IsAuthorized(c, r, c.after.preparedBy)
  {
    TransitionIsOfDraft(c);
  }

  lemma CommitIsAuthorized(c: Entry, r: Revision)
    requires EntryOk(Priority, c) && Wrote(c, r)
    ensures IsAuthorized(c, r, c.after.preparedBy)
  {
    match c.request.op
    case Create(_, _) => CreateIsAuthorized(c, r);
    case Edit(_, _, _) => EditIsAuthorized(c, r);
    case Transition(_, _, _, _) => TransitionIsAuthorized(c, r);
    case Delete(_) => DeleteHasNoLink(c);
  }

  /** The preparer wrote the first revision, and somebody else the last one of a final decision. */
  ghost predicate IsSeparate(rec: Record, chain: seq<Revision>) {
    && chain != [] && chain[0].actor == rec.preparedBy
    && (IsFinal(rec.status) ==> chain[|chain| - 1].actor != rec.preparedBy)
  }

  /** Revision `r` of a decision was written by a commit of someone entitled to it. */
  ghost predicate IsWarranted(log: seq<Entry>, r: Revision, id: nat, preparedBy: string) {
    exists j :: 0 <= j < |log| && log[j].id == id && IsAuthorized(log[j], r, preparedBy)
  }

  lemma RevisionIsWarranted(t0: Table, steps: seq<Step>, id: nat, i: nat)
    requires TableOk(Priority, t0) && id in Run(Priority, Start(t0), steps).table.rows
    requires |RevisionsOf(t0.revisions, id)| <= i < |RevisionsOf(Run(Priority, Start(t0), steps).table.revisions, id)|
    ensures var s := Run(Priority, Start(t0), steps);
            IsWarranted(s.log, RevisionsOf(s.table.revisions, id)[i], id, s.table.rows[id].rec.preparedBy)
  {
    var s := Run(Priority, Start(t0), steps);
    var j := RevisionHasCommit(t0, steps, id, i);
    CommitIsAuthorized(s.log[j], RevisionsOf(s.table.revisions, id)[i]);
  }

  /**
   Separation of duty, with no assumption on clients. If it held of a decision
   in the first table, or the decision was created since, it holds at the end:
   the first actor is the preparer, a final decision's last actor somebody else.
   Every revision written in the run was written by someone entitled to it,
   judged against the decision's preparer as it stands at the end.
   */
  lemma DutiesAreSeparate(t0: Table, steps: seq<Step>, id: nat)
    requires TableOk(Priority, t0) && id in Run(Priority, Start(t0), steps).table.rows
    requires id in t0.rows ==> IsSeparate(t0.rows[id].rec, RevisionsOf(t0.revisions, id))
    ensures var s := Run(Priority, Start(t0), steps);
            var rec, chain := s.table.rows[id].rec, RevisionsOf(s.table.revisions, id);
            && IsSeparate(rec, chain)
            && forall i :: |RevisionsOf(t0.revisions, id)| <= i < |chain| ==>
                 IsWarranted(s.log, chain[i], id, rec.preparedBy)
  {
    var s := Run(Priority, Start(t0), steps);
    var rec, chain, given := s.table.rows[id].rec, RevisionsOf(s.table.revisions, id), RevisionsOf(t0.revisions, id);
    RunKeepsInv(Priority, t0, steps);
    assert HasChain(t0, id) && HasChain(s.table, id);
    forall i | |given| <= i < |chain| ensures IsWarranted(s.log, chain[i], id, rec.preparedBy) {
      RevisionIsWarranted(t0, steps, id, i);
    }
    StartIsOk(Priority, t0);
    RunMovesOn(Priority, t0, Start(t0), steps, id);
    if id in t0.rows {
      StaysSeparate(s.log, t0.rows[id].rec, given, rec, chain);
    } else {
      BeginsSeparate(s.log, rec, chain);
    }
  }

  lemma BeginsSeparate(log: seq<Entry>, rec: Record, chain: seq<Revision>)
    requires IsChain(chain, rec)
    requires forall i :: 0 <= i < |chain| ==> IsWarranted(log, chain[i], rec.id, rec.preparedBy)
    ensures IsSeparate(rec, chain)
  {
    var last := |chain| - 1;
    assert IsWarranted(log, chain[0], rec.id, rec.preparedBy) && IsWarranted(log, chain[last], rec.id, rec.preparedBy);
  }

  lemma StaysSeparate(log: seq<Entry>, rec0: Record, given: seq<Revision>, rec: Record, chain: seq<Revision>)
    requires IsChain(given, rec0) && IsSeparate(rec0, given)
    requires IsChain(chain, rec) && IsPrefix(given, chain) && IsSnapshotOf(Priority, rec0, rec)
    requires forall i :: |given| <= i < |chain| ==> IsWarranted(log, chain[i], rec.id, rec.preparedBy)
    ensures IsSeparate(rec, chain)
  {
    assert chain[..|given|][0] == chain[0];
    var last := |chain| - 1;
    if |given| < |chain| {
      assert IsWarranted(log, chain[last], rec.id, rec.preparedBy);
    } else {
      assert chain == given;
    }
  }

  /** The seeded decisions satisfy what `DutiesAreSeparate` asks of a first table. */
  lemma SeedsAreSeparate(a: Fields, b: Fields, c: Fields, snapshot: Record, now: int, id: nat)
    requires id in SeededDecisions(a, b, c, snapshot, now).rows
    ensures var t := SeededDecisions(a, b, c, snapshot, now); IsSeparate(t.rows[id].rec, RevisionsOf(t.revisions, id))
  {
    FiveRevisions(SeededDecisions(a, b, c, snapshot, now).revisions, id);
  }

  // ----- Run alone, a request succeeds exactly when it may -----

  lemma ApplySucceedsIff(t: Table, w: Write, req: Request, newId: nat, now: int)
    requires TableOk(Priority, t) && w.Replace? && w.item.version == w.expected + 1
    ensures Apply(Priority, t, w, req, newId, now).Success?
       <==> IsLive(t, w.id) && t.rows[w.id].rec.version == w.expected
  {
    if IsLive(t, w.id) && t.rows[w.id].rec.version == w.expected {
      assert HasChain(t, w.id);
      RevisionIsFree(t, w.id, w.expected + 1);
    }
  }

  /** An edit: of a live draft at the named version, by its preparer or an admin, with no required text blank. */
  lemma EditSucceedsIff(t: Table, req: Request, newId: nat, now: int)
    requires TableOk(Priority, t) && req.op.Edit?
    ensures Execute(Priority, t, req, newId, now).Success? <==>
              && IsLive(t, req.op.id)
              && (var rec := t.rows[req.op.id].rec;
                  && rec.status == Draft && rec.version == req.op.expected
                  && (req.actor == rec.preparedBy || req.role == Admin)
                  && HasBusinessFields(Priority, rec.code, req.op.input))
  {
    var plan := Plan(Priority, req, Find(t, req.op.id));
    if plan.Success? {
      ApplySucceedsIff(t, plan.value, req, newId, now);
    }
  }

  lemma FinalizationPlannedIff(req: Request, read: Record)
    requires req.op.Transition?
    ensures var plan, to := Plan(Priority, req, Some(read)), Named(Text.Trim(req.op.target));
            && (plan.Success? <==>
                  && read.status == Draft && to.Some? && IsFinal(to.value)
                  && (req.role == Reviewer || req.role == Admin) && req.actor != read.preparedBy)
            && (plan.Success? ==>
                  && plan.value.Replace? && plan.value.id == req.op.id && plan.value.expected == req.op.expected
                  && plan.value.item.version == req.op.expected + 1)
  {
    var to := Named(Text.Trim(req.op.target));
    if to.Some? {
      DecisionEdges(read.status, to.value);
    }
  }

  /** A status change: of a live draft at the named version, to a final one, by a reviewer or admin not its preparer. */
  lemma FinalizationSucceedsIff(t: Table, req: Request, newId: nat, now: int)
    requires TableOk(Priority, t) && req.op.Transition?
    ensures Execute(Priority, t, req, newId, now).Success? <==>
              && IsLive(t, req.op.id)
              && (var rec, to := t.rows[req.op.id].rec, Named(Text.Trim(req.op.target));
                  && rec.status == Draft && rec.version == req.op.expected
                  && to.Some? && IsFinal(to.value)
                  && (req.role == Reviewer || req.role == Admin) && req.actor != rec.preparedBy)
  {
    if IsLive(t, req.op.id) {
      FinalizationPlannedIff(req, t.rows[req.op.id].rec);
      var plan := Plan(Priority, req, Find(t, req.op.id));
      if plan.Success? {
        ApplySucceedsIff(t, plan.value, req, newId, now);
      }
    }
  }

  /** A deletion: of a live draft, whatever its version. */
  lemma DeletionSucceedsIff(t: Table, req: Request, newId: nat, now: int)
    requires req.op.Delete?
    ensures Execute(Priority, t, req, newId, now).Success?
       <==> IsLive(t, req.op.id) && t.rows[req.op.id].rec.status == Draft
  {
  }
}
