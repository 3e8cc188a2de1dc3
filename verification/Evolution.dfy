/**
 How a record changes over any stretch of any run: it only moves on. Two
 moments at which it has the same version are the same record, what is never
 written stays, its revisions only grow, and deletion is the end.
 */
module Evolution {
  import opened Outcomes
  import opened Status
  import opened Text
  import opened Records
  import opened Tables
  import opened Protocol
  import opened Invariants

  ghost predicate IsPrefix<T>(a: seq<T>, b: seq<T>) {
    |a| <= |b| && b[..|a|] == a
  }

  /** From `t` to a later table, the record `id` has only moved on. */
  ghost predicate MovesOn(e: Entity, t: Table, later: Table, id: nat) {
    id in t.rows ==>
      && id in later.rows
      && IsSnapshotOf(e, t.rows[id].rec, later.rows[id].rec)
      && IsPrefix(RevisionsOf(t.revisions, id), RevisionsOf(later.revisions, id))
      && (t.rows[id].deleted ==>
          later.rows[id] == t.rows[id] && RevisionsOf(later.revisions, id) == RevisionsOf(t.revisions, id))
  }

  lemma LinksOfOther(e: Entity, t: Table, c: Entry, id: nat)
    ensures RevisionsOf(t.revisions + LinkOf(e, c), id)
         == RevisionsOf(t.revisions, id) + (if c.id == id then LinkOf(e, c) else [])
  {
    if LinkOf(e, c) == [] {
      assert t.revisions + [] == t.revisions;
      assert RevisionsOf(t.revisions, id) + [] == RevisionsOf(t.revisions, id);
    } else {
      RevisionsOfAppend(t.revisions, LinkOf(e, c)[0], id);
    }
  }

  lemma CommitMovesRecord(e: Entity, c: Entry)
    requires EntryOk(e, c) && c.before.Some? && HasStatus(e, c.before.value.status)
    ensures IsSnapshotOf(e, c.before.value, c.after)
  {
  }

  lemma CommitMovesRow(e: Entity, t: Table, t': Table, c: Entry, id: nat)
    requires RowWritten(e, t, t', c)
    requires id in t.rows ==> HasStatus(e, t.rows[id].rec.status)
    ensures MovesOn(e, t, t', id)
  {
    var x := RevisionsOf(t.revisions, id);
    LinksOfOther(e, t, c, id);
    if id in t.rows {
      if id == c.id {
        CommitMovesRecord(e, c);
        assert RevisionsOf(t'.revisions, id) == x + LinkOf(e, c);
      } else {
        assert t'.rows[id] == t.rows[id];
        assert RevisionsOf(t'.revisions, id) == x + [] == x;
      }
    }
  }

  lemma MovesOnAndOn(e: Entity, a: Table, b: Table, c: Table, id: nat)
    requires MovesOn(e, a, b, id) && MovesOn(e, b, c, id)
    ensures MovesOn(e, a, c, id)
  {
    if id in a.rows {
      var x, y, z := RevisionsOf(a.revisions, id), RevisionsOf(b.revisions, id), RevisionsOf(c.revisions, id);
      assert z[..|x|] == z[..|y|][..|x|];
    }
  }

  /** Over any run, from any reachable state, every record only moves on. */
  lemma {:induction false} RunMovesOn(e: Entity, t0: Table, s: State, steps: seq<Step>, id: nat)
    requires Inv(e, t0, s)
    ensures MovesOn(e, s.table, Run(e, s, steps).table, id)
  {
    if steps == [] {
      assert RevisionsOf(s.table.revisions, id)[..] == RevisionsOf(s.table.revisions, id);
    } else {
      var front := steps[..|steps| - 1];
      RunMovesOn(e, t0, s, front, id);
      RunFromKeepsInv(e, t0, s, front);
      var mid, step := Run(e, s, front), steps[|steps| - 1];
      StepEffect(e, t0, mid, step);
      if WrittenBy(e, mid, step).Some? {
        CommitMovesRow(e, mid.table, Next(e, mid, step).table, WrittenBy(e, mid, step).value, id);
        MovesOnAndOn(e, s.table, mid.table, Next(e, mid, step).table, id);
      }
    }
  }

  /** A successful edit or status change overwrites the live row at the version it names. */
  lemma OverwritesNamedVersion(e: Entity, t: Table, t': Table, c: Entry)
    requires RowWritten(e, t, t', c) && (c.request.op.Edit? || c.request.op.Transition?)
    ensures c.id in t.rows && c.before == Some(t.rows[c.id].rec)
    ensures c.before.value.version == c.request.op.expected && c.after.version == c.request.op.expected + 1
  {
  }

  /**
   No update is lost. If a client saw version `v` of a record and its edit or
   status change naming `v` succeeds later, then the row it overwrites is, in
   every field, what the client saw: nobody committed in between.
   */
  lemma NoUpdateIsLost(e: Entity, t0: Table, seen: State, steps: seq<Step>, step: Step)
    requires Inv(e, t0, seen)
    requires var s := Run(e, seen, steps);
             WrittenBy(e, s, step).Some? &&
             (var c := WrittenBy(e, s, step).value;
              && (c.request.op.Edit? || c.request.op.Transition?)
              && c.id in seen.table.rows && seen.table.rows[c.id].rec.version == c.request.op.expected)
    ensures var c := WrittenBy(e, Run(e, seen, steps), step).value;
            && c.before == Some(seen.table.rows[c.id].rec)
            && c.after.version == seen.table.rows[c.id].rec.version + 1
  {
    var s := Run(e, seen, steps);
    RunFromKeepsInv(e, t0, seen, steps);
    StepEffect(e, t0, s, step);
    var c := WrittenBy(e, s, step).value;
    OverwritesNamedVersion(e, s.table, Next(e, s, step).table, c);
    RunMovesOn(e, t0, seen, steps, c.id);
  }

  /** Once deleted, a record is never read, edited, moved or deleted again, and row and revisions stay as they are. */
  lemma DeletionIsForever(e: Entity, t0: Table, s: State, steps: seq<Step>, id: nat)
    requires Inv(e, t0, s) && IsDeleted(s.table, id)
    ensures var s' := Run(e, s, steps);
            && id in s'.table.rows && s'.table.rows[id] == s.table.rows[id]
            && RevisionsOf(s'.table.revisions, id) == RevisionsOf(s.table.revisions, id)
            && Find(s'.table, id).None?
    ensures forall step :: WrittenBy(e, Run(e, s, steps), step).Some? ==>
              WrittenBy(e, Run(e, s, steps), step).value.id != id
  {
    RunMovesOn(e, t0, s, steps, id);
    RunFromKeepsInv(e, t0, s, steps);
    var s' := Run(e, s, steps);
    forall step | WrittenBy(e, s', step).Some? ensures WrittenBy(e, s', step).value.id != id {
      StepEffect(e, t0, s', step);
    }
  }

  /** Every logged record is a past state of a row, and no two creates were given one id. */
  ghost predicate LogIsPast(e: Entity, s: State) {
    && (forall i :: 0 <= i < |s.log| ==>
          s.log[i].id in s.table.rows && IsSnapshotOf(e, s.log[i].after, s.table.rows[s.log[i].id].rec))
    && (forall i, j :: 0 <= i < j < |s.log| && s.log[j].request.op.Create? ==> s.log[i].id != s.log[j].id)
  }

  lemma {:induction false} RunKeepsLogPast(e: Entity, t0: Table, steps: seq<Step>)
    requires TableOk(e, t0)
    ensures LogIsPast(e, Run(e, Start(t0), steps))
  {
    if steps != [] {
      var front := steps[..|steps| - 1];
      RunKeepsLogPast(e, t0, front);
      RunKeepsInv(e, t0, front);
      var s, step := Run(e, Start(t0), front), steps[|steps| - 1];
      StepEffect(e, t0, s, step);
      if WrittenBy(e, s, step).Some? {
        CommitKeepsLogPast(e, s, Next(e, s, step), step.token, WrittenBy(e, s, step).value);
      }
    }
  }

  lemma CommitKeepsPast(e: Entity, s: State, s': State, token: nat, c: Entry, i: nat)
    requires LogIsPast(e, s) && IsCommit(e, s, s', token, c) && i < |s.log|
    ensures s.log[i].id in s'.table.rows && IsSnapshotOf(e, s.log[i].after, s'.table.rows[s.log[i].id].rec)
  {
    if s.log[i].id == c.id {
      CommitMovesOn(e, c, s.log[i].after);
    }
  }

  lemma CreateHasNewId(e: Entity, s: State, s': State, token: nat, c: Entry, i: nat)
    requires LogIsPast(e, s) && IsCommit(e, s, s', token, c) && c.request.op.Create? && i < |s.log|
    ensures s.log[i].id != c.id
  {
  }

  lemma CommitKeepsLogPast(e: Entity, s: State, s': State, token: nat, c: Entry)
    requires LogIsPast(e, s) && IsCommit(e, s, s', token, c)
    ensures LogIsPast(e, s')
  {
    forall i | 0 <= i < |s'.log|
      ensures s'.log[i].id in s'.table.rows && IsSnapshotOf(e, s'.log[i].after, s'.table.rows[s'.log[i].id].rec)
    {
      if i < |s.log| {
        CommitKeepsPast(e, s, s', token, c, i);
      } else {
        CommittedIsPast(e, s, s', token, c);
      }
    }
    forall i, j | 0 <= i < j < |s'.log| && s'.log[j].request.op.Create? ensures s'.log[i].id != s'.log[j].id {
      if j == |s.log| {
        CreateHasNewId(e, s, s', token, c, i);
      }
    }
  }

  lemma CommittedIsPast(e: Entity, s: State, s': State, token: nat, c: Entry)
    requires IsCommit(e, s, s', token, c)
    ensures c.id in s'.table.rows && IsSnapshotOf(e, c.after, s'.table.rows[c.id].rec)
  {
    assert RowOk(e, c.id, s'.table.rows[c.id].rec);
  }

  /**
   Codes identify records. In every reachable state the stored codes, those of
   deleted rows included, are canonical and pairwise distinct; a record's code
   is the canonical form of the one it was created with, for good.
   */
  lemma CodesIdentify(e: Entity, t0: Table, steps: seq<Step>)
    requires TableOk(e, t0)
    ensures var s := Run(e, Start(t0), steps);
            && HasDistinctCodes(s.table)
            && (forall id :: id in s.table.rows ==> IsCanonical(s.table.rows[id].rec.code))
            && (forall id :: id in t0.rows ==> id in s.table.rows && s.table.rows[id].rec.code == t0.rows[id].rec.code)
            && (forall i :: 0 <= i < |s.log| && s.log[i].request.op.Create? ==>
                  s.log[i].id in s.table.rows
                  && s.table.rows[s.log[i].id].rec.code == Canonical(s.log[i].request.op.code))
  {
    RunKeepsInv(e, t0, steps);
    RunKeepsLogPast(e, t0, steps);
    var s := Run(e, Start(t0), steps);
    forall id | id in s.table.rows ensures IsCanonical(s.table.rows[id].rec.code) {
      assert RowOk(e, id, s.table.rows[id].rec);
    }
    forall id | id in t0.rows
      ensures id in s.table.rows && s.table.rows[id].rec.code == t0.rows[id].rec.code
    {
      StartIsOk(e, t0);
      RunMovesOn(e, t0, Start(t0), steps, id);
    }
  }

  /** Two creates whose codes agree up to case and surrounding space never both succeed. */
  lemma NoTwoCreatesShareCode(e: Entity, t0: Table, steps: seq<Step>, i: nat, j: nat)
    requires TableOk(e, t0)
    requires var log := Run(e, Start(t0), steps).log;
             && i < j < |log| && log[i].request.op.Create? && log[j].request.op.Create?
    ensures var log := Run(e, Start(t0), steps).log;
            !EqualFold(Trim(log[i].request.op.code), Trim(log[j].request.op.code))
  {
    CodesIdentify(e, t0, steps);
    RunKeepsLogPast(e, t0, steps);
    var log := Run(e, Start(t0), steps).log;
    CanonicalAgrees(log[i].request.op.code, log[j].request.op.code);
  }
}
