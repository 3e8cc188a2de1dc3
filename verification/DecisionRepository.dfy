/**
 The repository of priority decisions: a decision row and its revision are
 written in one transaction, so a refused revision takes the row back with it.
 */
module DecisionRepository {
  import opened Outcomes
  import opened Records
  import Tables
  import Store

  class Repository {
    const store: Store.RecordStore
    var revisions: seq<Revision>

    ghost predicate Valid()
      reads this, store
    {
      store.Valid()
    }

    function View(): Table
      reads this, store
    {
      Table(store.rows, revisions)
    }

    constructor (store: Store.RecordStore)
      requires store.Valid()
      ensures Valid() && this.store == store && revisions == []
    {
      this.store := store;
      revisions := [];
    }

    /** A decision with its revisions; they come in version order because they were written so. */
    method Get(id: nat) returns (item: Option<Record>, history: seq<Revision>)
      ensures item == if id in store.rows && !store.rows[id].deleted then Some(store.rows[id].rec) else None
      ensures item == Find(View(), id)
      ensures history == if item.Some? then RevisionsOf(revisions, id) else []
      ensures item.Some? && Tables.HasChain(View(), id) ==>
                |history| == item.value.version && forall i :: 0 <= i < |history| ==> history[i].version == i + 1
    {
      item := store.Get(id);
      history := if item.Some? then RevisionsOf(revisions, id) else [];
    }

    method CreateWithRevision(item: Record, revision: Revision, now: int) returns (r: Result<nat, Error>)
      requires Valid()
      modifies this, store
      ensures Valid()
      ensures var t, id := old(View()), old(store.nextId);
              var link := revision.(decisionId := id);
              if exists id :: id in t.rows && t.rows[id].rec.code == item.code
              then r == Failure(DuplicateCode) && View() == t
              else if IsRevisionTaken(t, id, link.version) then r == Failure(DuplicateRevision) && View() == t
              else
                var saved := item.(id := id, version := if item.version == 0 then 1 else item.version);
                && r == Success(id) && id > 0 && id !in t.rows
                && View() == Table(t.rows[id := Stored(saved, false, now)], t.revisions + [link])
    {
      var rows := store.rows;
      r := store.Create(item, now);
      if r.Failure? {
        return;
      }
      assert forall id :: id in rows ==> id in store.rows;
      var link := revision.(decisionId := r.value);
      r := Append(link, rows);
    }

    method UpdateWithRevision(id: nat, expected: nat, item: Record, revision: Revision, now: int)
      returns (r: Result<nat, Error>)
      requires Valid()
      modifies this, store
      ensures Valid()
      ensures var t, link := old(View()), revision.(decisionId := id);
              if !IsLive(t, id) || t.rows[id].rec.version != expected then r == Failure(VersionConflict) && View() == t
              else if IsRevisionTaken(t, id, link.version) then r == Failure(DuplicateRevision) && View() == t
              else
                var was := t.rows[id].rec;
                var saved := item.(id := was.id, code := was.code, preparedBy := was.preparedBy);
                r == Success(id) && View() == Table(t.rows[id := Stored(saved, false, now)], t.revisions + [link])
    {
      var rows := store.rows;
      r := store.Update(id, expected, item, now);
      if r.Failure? {
        return;
      }
      var link := revision.(decisionId := id);
      r := Append(link, rows);
    }

    /** The second half of a transaction: adds the revision, or puts the rows back as `rows`. */
    method Append(link: Revision, rows: map<nat, Stored>) returns (r: Result<nat, Error>)
      requires Valid() && forall id :: id in rows ==> id < store.nextId
      modifies this, store
      ensures Valid()
      ensures if IsRevisionTaken(Table(rows, old(revisions)), link.decisionId, link.version)
              then r == Failure(DuplicateRevision) && View() == Table(rows, old(revisions))
              else r == Success(link.decisionId) && View() == Table(old(store.rows), old(revisions) + [link])
    {
      if IsRevisionTaken(View(), link.decisionId, link.version) {
        store.rows := rows;
        return Failure(DuplicateRevision);
      }
      revisions := revisions + [link];
      r := Success(link.decisionId);
    }

    method Delete(id: nat) returns (r: Result<nat, Error>)
      requires Valid()
      modifies store
      ensures Valid() && revisions == old(revisions)
      ensures var t := old(View());
              if IsLive(t, id)
              then r == Success(id) && View() == Table(t.rows[id := t.rows[id].(deleted := true)], t.revisions)
              else r == Failure(NotFound) && View() == t
    {
      r := store.Delete(id);
    }
  }
}
