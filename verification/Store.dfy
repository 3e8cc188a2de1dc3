/**
 The repository every entity shares: a table of rows with soft deletion and
 optimistic locking. `now` is the clock reading the database puts on a write.
 */
module Store {
  import opened Outcomes
  import opened Status
  import opened Records
  import Tally
  import opened Counts
  import opened Paging

  datatype Page = Page(items: seq<Record>, total: nat, page: int, pageSize: int)

  /** Brings a page number and size into range by overwriting them in turn. */
  method NormalizePage(page: int, pageSize: int) returns (p: int, n: int)
    ensures (p, n) == NormalPage(page, pageSize)
    ensures p == if page >= 1 then page else 1
    ensures n == if pageSize < 1 then 20 else if pageSize > 100 then 100 else pageSize
  {
    p, n := page, pageSize;
    if p < 1 {
      p := 1;
    }
    if n < 1 {
      n := 20;
    }
    if n > 100 {
      n := 100;
    }
  }

  /** The records behind a list of ids. */
  function RecordsOf(t: Table, ids: seq<nat>): seq<Record>
    requires forall id :: id in ids ==> id in t.rows
  {
    seq(|ids|, i requires 0 <= i < |ids| => assert ids[i] in ids; t.rows[ids[i]].rec)
  }

  /** `items` are the records of at most `n` ids of the list, in its order, after the first `skipped`. */
  ghost predicate IsPage(t: Table, all: seq<nat>, skipped: int, n: int, items: seq<Record>) {
    && |items| == (if skipped >= |all| then 0 else Min(n, |all| - skipped))
    && forall i :: 0 <= i < |items| ==>
         0 <= skipped + i < |all| && all[skipped + i] in t.rows && items[i] == t.rows[all[skipped + i]].rec
  }

  lemma SliceIsPage(t: Table, all: seq<nat>, page: int, n: int)
    requires page >= 1 && n >= 1 && forall id :: id in all ==> id in t.rows
    ensures forall id :: id in Slice(all, page, n) ==> id in t.rows
    ensures IsPage(t, all, (page - 1) * n, n, RecordsOf(t, Slice(all, page, n)))
  {
    SliceIsWindow(all, page, n);
    var shown := Slice(all, page, n);
    forall id | id in shown ensures id in t.rows {
      var i :| 0 <= i < |shown| && shown[i] == id;
      assert all[(page - 1) * n + i] == id;
    }
  }

  /** The hook that runs before an insert. */
  function WithVersion(item: Record): Record {
    if item.version == 0 then item.(version := 1) else item
  }

  class RecordStore {
    var rows: map<nat, Stored>
    var nextId: nat

    /** Ids are handed out in ascending order, so the next one is fresh. */
    ghost predicate Valid()
      reads this
    {
      nextId > 0 && forall id :: id in rows ==> id < nextId
    }

    function View(): Table
      reads this
    {
      Table(rows, [])
    }

    constructor ()
      ensures Valid() && rows == map[]
    {
      rows, nextId := map[], 1;
    }

    method Get(id: nat) returns (item: Option<Record>)
      ensures item == if id in rows && !rows[id].deleted then Some(rows[id].rec) else None
      ensures item == Find(View(), id)
    {
      if id in rows && !rows[id].deleted {
        return Some(rows[id].rec);
      }
      return None;
    }

    method Create(item: Record, now: int) returns (r: Result<nat, Error>)
      requires Valid()
      modifies this
      ensures Valid()
      ensures if exists id :: id in old(rows) && old(rows)[id].rec.code == item.code
              then r == Failure(DuplicateCode) && rows == old(rows)
              else
                var id := old(nextId);
                var saved := item.(id := id, version := if item.version == 0 then 1 else item.version);
                r == Success(id) && id !in old(rows) && rows == old(rows)[id := Stored(saved, false, now)]
    {
      if IsCodeTaken(View(), item.code) {
        return Failure(DuplicateCode);
      }
      rows := rows[nextId := Stored(WithVersion(item).(id := nextId), false, now)];
      r := Success(nextId);
      nextId := nextId + 1;
    }

    /** The conditional write: no row matches unless it is live and at the expected version. */
    method Update(id: nat, expected: nat, item: Record, now: int) returns (r: Result<nat, Error>)
      requires Valid()
      modifies this
      ensures Valid() && nextId == old(nextId)
      ensures if id in old(rows) && !old(rows)[id].deleted && old(rows)[id].rec.version == expected
              then
                var was := old(rows)[id].rec;
                var saved := item.(id := was.id, code := was.code, preparedBy := was.preparedBy);
                r == Success(id) && rows == old(rows)[id := Stored(saved, false, now)]
              else r == Failure(VersionConflict) && rows == old(rows)
    {
      if id !in rows || rows[id].deleted || rows[id].rec.version != expected {
        return Failure(VersionConflict);
      }
      rows := rows[id := Stored(Overwritten(rows[id].rec, item), false, now)];
      r := Success(id);
    }

    method Delete(id: nat) returns (r: Result<nat, Error>)
      requires Valid()
      modifies this
      ensures Valid() && nextId == old(nextId)
      ensures if id in old(rows) && !old(rows)[id].deleted
              then r == Success(id) && rows == old(rows)[id := old(rows)[id].(deleted := true)]
              else r == Failure(NotFound) && rows == old(rows)
    {
      if id !in rows || rows[id].deleted {
        return Failure(NotFound);
      }
      rows := rows[id := rows[id].(deleted := true)];
      r := Success(id);
    }

    /** One page of the rows a filter keeps, with the number of all of them. */
    method List(keep: Record -> bool, page: int, pageSize: int) returns (r: Page)
      ensures r.page == if page >= 1 then page else 1
      ensures r.pageSize == if pageSize < 1 then 20 else if pageSize > 100 then 100 else pageSize
      ensures r.total == |set id | id in rows && !rows[id].deleted && keep(rows[id].rec)|
      ensures var all := Ranked(View(), Selected(View(), keep));
              && IsListing(View(), keep, all) && |all| == r.total
              && IsPage(View(), all, (r.page - 1) * r.pageSize, r.pageSize, r.items)
    {
      var p, n := NormalizePage(page, pageSize);
      var ids := Selected(View(), keep);
      RankedIsRanking(View(), ids);
      RankedIsListing(View(), keep);
      SliceIsPage(View(), Ranked(View(), ids), p, n);
      var shown := Slice(Ranked(View(), ids), p, n);
      r := Page(RecordsOf(View(), shown), |ids|, p, n);
    }

    /** The number of live rows of each status that occurs, filled in from the grouping query row by row. */
    method CountByStatus() returns (counts: map<Status, nat>)
      ensures IsCount(View(), counts)
      ensures forall s :: s in counts <==> exists id :: id in rows && !rows[id].deleted && rows[id].rec.status == s
      ensures forall s :: s in counts ==>
                counts[s] == |set id | id in rows && !rows[id].deleted && rows[id].rec.status == s|
    {
      var groups := AllGroups(View());
      AllGroupsAreExact(View());
      counts := map[];
      for i := 0 to |groups|
        invariant counts.Keys == set j | 0 <= j < i :: groups[j].0
        invariant forall j :: 0 <= j < i ==> counts[groups[j].0] == groups[j].1
      {
        var (status, total) := groups[i];
        counts := counts[status := total];
      }
      FilledIsCount(View(), groups, counts);
      CountIsByStatus(View(), counts);
    }
  }

  /** `counts` has each status that occurs among the live rows, with how often. */
  ghost predicate IsCount(t: Table, counts: map<Status, nat>) {
    && (forall s :: s in counts <==> LiveWith(t, s) != {})
    && (forall s :: s in counts ==> counts[s] == |LiveWith(t, s)|)
  }

  lemma CountIsByStatus(t: Table, counts: map<Status, nat>)
    requires IsCount(t, counts)
    ensures forall s :: s in counts <==> exists id :: id in t.rows && !t.rows[id].deleted && t.rows[id].rec.status == s
    ensures forall s :: s in counts ==>
              counts[s] == |set id | id in t.rows && !t.rows[id].deleted && t.rows[id].rec.status == s|
  {
    forall s
      ensures LiveWith(t, s) == set id | id in t.rows && !t.rows[id].deleted && t.rows[id].rec.status == s
      ensures s in counts <==> exists id :: id in t.rows && !t.rows[id].deleted && t.rows[id].rec.status == s
    {
      if s in counts {
        var id :| id in LiveWith(t, s);
        assert t.rows[id].rec.status == s;
      }
      if id :| id in t.rows && !t.rows[id].deleted && t.rows[id].rec.status == s {
        assert id in LiveWith(t, s);
      }
    }
  }

  /** A status's count is the total of a listing filtered by it. */
  lemma CountIsFilteredTotal(t: Table, counts: map<Status, nat>, status: Status)
    requires IsCount(t, counts)
    ensures var total := |Selected(t, (r: Record) => r.status == status)|;
            if status in counts then counts[status] == total else total == 0
  {
    assert Selected(t, (r: Record) => r.status == status) == LiveWith(t, status);
  }

  /** The counts of the listed statuses added up. */
  function TotalOf(counts: map<Status, nat>, statuses: seq<Status>): nat {
    if statuses == [] then 0
    else
      var last := statuses[|statuses| - 1];
      TotalOf(counts, statuses[..|statuses| - 1]) + (if last in counts then counts[last] else 0)
  }

  lemma {:induction false} TotalIsSum(t: Table, counts: map<Status, nat>, statuses: seq<Status>)
    requires IsCount(t, counts)
    ensures TotalOf(counts, statuses) == Tally.Sum(GroupByStatus(t, statuses))
  {
    if statuses != [] {
      var front, last := statuses[..|statuses| - 1], statuses[|statuses| - 1];
      TotalIsSum(t, counts, front);
      if last in counts {
        Tally.SumAppend(GroupByStatus(t, front), (last, |LiveWith(t, last)|));
      } else {
        assert GroupByStatus(t, front) + [] == GroupByStatus(t, front);
      }
    }
  }

  /** The counts of all statuses, each taken once, add up to the unfiltered total; no other key is in the map. */
  lemma CountsAddUp(t: Table, counts: map<Status, nat>)
    requires IsCount(t, counts)
    ensures IsDistinct(ALL) && forall s :: s in counts ==> s in ALL
    ensures TotalOf(counts, ALL) == |Selected(t, (r: Record) => true)|
  {
    StatusesAreDistinct();
    TotalIsSum(t, counts, ALL);
    CountsSumToTotal(t);
    assert Selected(t, (r: Record) => true) == LiveIds(t);
    forall s | s in counts ensures s in ALL {
      ListedInAll(s);
    }
  }

  lemma FilledIsCount(t: Table, groups: seq<(Status, nat)>, counts: map<Status, nat>)
    requires groups == AllGroups(t)
    requires counts.Keys == set j | 0 <= j < |groups| :: groups[j].0
    requires forall j :: 0 <= j < |groups| ==> counts[groups[j].0] == groups[j].1
    ensures IsCount(t, counts)
  {
    AllGroupsAreExact(t);
    forall s | s in counts ensures LiveWith(t, s) != {} && counts[s] == |LiveWith(t, s)| {
      var j :| 0 <= j < |groups| && groups[j].0 == s;
      assert groups[j] in groups;
    }
    forall s | LiveWith(t, s) != {} ensures s in counts {
      var j :| 0 <= j < |groups| && groups[j] == (s, |LiveWith(t, s)|);
      assert groups[j].0 in counts.Keys;
    }
  }
}
