/**
 Counting records by status. The groups account for every live record, and
 over a disciplined run the count of each status moves exactly as the commits
 say: one in per creation or arrival, one out per departure or deletion.
 */
module Counts {
  import opened Status
  import opened Records
  import Tables
  import opened Protocol
  import opened Invariants
  import Discipline
  import Walks
  import Tally

  /** The live records with a status. */
  function LiveWith(t: Table, status: Status): set<nat> {
    set id | id in t.rows && !t.rows[id].deleted && t.rows[id].rec.status == status
  }

  function LiveIds(t: Table): set<nat> {
    set id | id in t.rows && !t.rows[id].deleted
  }

  /** The live records whose status is in a list. */
  function LiveAmong(t: Table, statuses: seq<Status>): set<nat> {
    set id | id in t.rows && !t.rows[id].deleted && t.rows[id].rec.status in statuses
  }

  /** The rows of the grouping query: each status that occurs, with how often. */
  function GroupByStatus(t: Table, statuses: seq<Status>): seq<(Status, nat)> {
    if statuses == [] then []
    else
      var front, last := statuses[..|statuses| - 1], statuses[|statuses| - 1];
      GroupByStatus(t, front) + (if LiveWith(t, last) == {} then [] else [(last, |LiveWith(t, last)|)])
  }

  ghost predicate IsDistinct<T(!new)>(s: seq<T>) {
    forall i, j :: 0 <= i < j < |s| ==> s[i] != s[j]
  }

  lemma {:induction false} GroupsSum(t: Table, statuses: seq<Status>)
    requires IsDistinct(statuses)
    ensures Tally.Sum(GroupByStatus(t, statuses)) == |LiveAmong(t, statuses)|
  {
    if statuses == [] {
      assert LiveAmong(t, statuses) == {};
    } else {
      var front, last := statuses[..|statuses| - 1], statuses[|statuses| - 1];
      GroupsSum(t, front);
      assert statuses == front + [last];
      assert LiveAmong(t, statuses) == LiveAmong(t, front) + LiveWith(t, last);
      assert LiveAmong(t, front) !! LiveWith(t, last);
      var groups := GroupByStatus(t, front);
      if LiveWith(t, last) == {} {
        assert groups + [] == groups;
      } else {
        Tally.SumAppend(groups, (last, |LiveWith(t, last)|));
      }
    }
  }

  /** The groups are exactly the statuses in the list that occur, each once, with their counts. */
  lemma {:induction false} GroupsAreExact(t: Table, statuses: seq<Status>)
    requires IsDistinct(statuses)
    ensures var groups := GroupByStatus(t, statuses);
            && (forall g :: g in groups ==> g.0 in statuses && g.1 == |LiveWith(t, g.0)| && g.1 > 0)
            && (forall s :: s in statuses && LiveWith(t, s) != {} ==> (s, |LiveWith(t, s)|) in groups)
            && (forall i, j :: 0 <= i < j < |groups| ==> groups[i].0 != groups[j].0)
  {
    if statuses != [] {
      var front, last := statuses[..|statuses| - 1], statuses[|statuses| - 1];
      GroupsAreExact(t, front);
      assert statuses == front + [last];
      var groups := GroupByStatus(t, front);
      forall i | 0 <= i < |groups| ensures groups[i].0 in front && groups[i].0 != last {
        assert groups[i] in groups;
      }
    }
  }

  lemma StatusesAreDistinct()
    ensures IsDistinct(ALL)
  {
  }

  /** The rows of the grouping query over a whole table. */
  function AllGroups(t: Table): seq<(Status, nat)> {
    GroupByStatus(t, ALL)
  }

  /** Every live record is in one group, so the counts add up to the unfiltered total. */
  lemma CountsSumToTotal(t: Table)
    ensures Tally.Sum(AllGroups(t)) == |LiveIds(t)|
  {
    StatusesAreDistinct();
    GroupsSum(t, ALL);
    forall id | id in LiveIds(t) ensures id in LiveAmong(t, ALL) {
      ListedInAll(t.rows[id].rec.status);
    }
    assert LiveAmong(t, ALL) == LiveIds(t);
  }

  /** Each group is a status that occurs, once, with its count; and every status that occurs has one. */
  lemma AllGroupsAreExact(t: Table)
    ensures forall g :: g in AllGroups(t) ==> g.1 == |LiveWith(t, g.0)| && g.1 > 0
    ensures forall s :: LiveWith(t, s) != {} ==> (s, |LiveWith(t, s)|) in AllGroups(t)
    ensures forall i, j :: 0 <= i < j < |AllGroups(t)| ==> AllGroups(t)[i].0 != AllGroups(t)[j].0
  {
    StatusesAreDistinct();
    GroupsAreExact(t, ALL);
    forall s | LiveWith(t, s) != {} ensures (s, |LiveWith(t, s)|) in AllGroups(t) {
      ListedInAll(s);
    }
  }

  // ----- Conservation over runs -----

  /** The commit brings a record into a status: creation into the initial one, a status change into its target. */
  predicate Enters(e: Entity, c: Entry, status: Status) {
    (c.request.op.Create? && Initial(e) == status) || (c.request.op.Transition? && c.after.status == status)
  }

  /** The commit takes a record out of a status: a change out of the one it read, a deletion out of the one it found. */
  predicate Leaves(c: Entry, status: Status) {
    || (c.request.op.Transition? && c.read.Some? && c.read.value.status == status)
    || (c.request.op.Delete? && c.before.Some? && c.before.value.status == status)
  }

  function CountEntering(e: Entity, log: seq<Entry>, status: Status): nat {
    if log == [] then 0
    else CountEntering(e, log[..|log| - 1], status) + (if Enters(e, log[|log| - 1], status) then 1 else 0)
  }

  function CountLeaving(log: seq<Entry>, status: Status): nat {
    if log == [] then 0
    else CountLeaving(log[..|log| - 1], status) + (if Leaves(log[|log| - 1], status) then 1 else 0)
  }

  lemma CommitCounts(e: Entity, c: Entry, status: Status)
    requires EntryOk(e, c) && Discipline.SawTheRow(c)
    ensures (if !c.request.op.Delete? && c.after.status == status then 1 else 0) + (if Leaves(c, status) then 1 else 0)
         == (if c.before.Some? && c.before.value.status == status then 1 else 0)
            + (if Enters(e, c, status) then 1 else 0)
  {
    if c.request.op.Edit? {
      Walks.EditKeepsStatus(e, c);
    }
  }

  lemma LiveWithAfter(e: Entity, t: Table, t': Table, c: Entry, status: Status)
    requires RowWritten(e, t, t', c)
    ensures LiveWith(t', status) - {c.id} == LiveWith(t, status) - {c.id}
    ensures c.id in LiveWith(t', status) <==> !c.request.op.Delete? && c.after.status == status
    ensures c.id in LiveWith(t, status) <==> c.before.Some? && c.before.value.status == status
  {
    forall id | id != c.id ensures id in LiveWith(t', status) <==> id in LiveWith(t, status) {
      assert id in t'.rows <==> id in t.rows;
      assert id in t.rows ==> t'.rows[id] == t.rows[id];
    }
  }

  lemma SizeWithout(s: set<nat>, id: nat)
    ensures |s| == |s - {id}| + (if id in s then 1 else 0)
  {
    if id in s {
      assert s == (s - {id}) + {id};
    } else {
      assert s == s - {id};
    }
  }

  lemma RowCounts(e: Entity, t: Table, t': Table, c: Entry, status: Status)
    requires RowWritten(e, t, t', c)
    ensures |LiveWith(t', status)| + (if c.before.Some? && c.before.value.status == status then 1 else 0)
         == |LiveWith(t, status)| + (if !c.request.op.Delete? && c.after.status == status then 1 else 0)
  {
    LiveWithAfter(e, t, t', c, status);
    SizeWithout(LiveWith(t', status), c.id);
    SizeWithout(LiveWith(t, status), c.id);
  }

  lemma CountsAppend(e: Entity, log: seq<Entry>, c: Entry, status: Status)
    ensures CountEntering(e, log + [c], status)
         == CountEntering(e, log, status) + (if Enters(e, c, status) then 1 else 0)
    ensures CountLeaving(log + [c], status) == CountLeaving(log, status) + (if Leaves(c, status) then 1 else 0)
  {
    assert (log + [c])[..|log|] == log;
  }

  /**
   Status-count conservation. Over any run whose edits and status changes named
   the version they read the number of live
   records in a status is what it was, plus the creations into it and arrivals
   at it, less the departures from it and deletions in it; edits move nothing.
   */
  lemma {:induction false} CountsAreConserved(e: Entity, t0: Table, steps: seq<Step>, status: Status)
    requires Tables.TableOk(e, t0) && Discipline.NamedTheirVersions(Run(e, Start(t0), steps).log, 0)
    ensures var s := Run(e, Start(t0), steps);
            |LiveWith(s.table, status)| + CountLeaving(s.log, status)
            == |LiveWith(t0, status)| + CountEntering(e, s.log, status)
  {
    if steps != [] {
      var front, step := steps[..|steps| - 1], steps[|steps| - 1];
      StartIsOk(e, t0);
      Discipline.LastStepSaw(e, t0, Start(t0), steps, 0);
      CountsAreConserved(e, t0, front, status);
      var s, s' := Run(e, Start(t0), front), Run(e, Start(t0), steps);
      if WrittenBy(e, s, step).Some? {
        var c := WrittenBy(e, s, step).value;
        RowCounts(e, s.table, s'.table, c, status);
        CommitCounts(e, c, status);
        CountsAppend(e, s.log, c, status);
      }
    }
  }
}
