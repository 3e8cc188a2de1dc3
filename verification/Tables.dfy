/**
 What every reachable table satisfies, whatever requests do and in whatever
 order: identified rows, distinct canonical codes, and for each decision a
 chain of revisions numbered 1, 2, ..., Version without a gap.
 */
module Tables {
  import opened Status
  import Text
  import opened Records

  /** `chain` is the full history of `rec`: one revision per version, the last one describing the row. */
  ghost predicate IsChain(chain: seq<Revision>, rec: Record) {
    && |chain| == rec.version
    && (forall i :: 0 <= i < |chain| ==> chain[i].version == i + 1)
    && chain != []
    && chain[|chain| - 1].status == rec.status
    && chain[|chain| - 1].evidence == rec.fields.evidence
  }

  ghost predicate RowOk(e: Entity, id: nat, rec: Record) {
    && id > 0 && rec.id == id && rec.version >= 1
    && HasStatus(e, rec.status)
    && Text.IsCanonical(rec.code) && rec.code != ""
  }

  ghost predicate HasDistinctCodes(t: Table) {
    forall i, j :: i in t.rows && j in t.rows && t.rows[i].rec.code == t.rows[j].rec.code ==> i == j
  }

  ghost predicate HasChain(t: Table, id: nat) {
    if id in t.rows then IsChain(RevisionsOf(t.revisions, id), t.rows[id].rec)
    else RevisionsOf(t.revisions, id) == []
  }

  ghost predicate TableOk(e: Entity, t: Table) {
    && (forall id :: id in t.rows ==> RowOk(e, id, t.rows[id].rec))
    && HasDistinctCodes(t)
    && if e.Priority? then forall id: nat :: HasChain(t, id) else t.revisions == []
  }

  /** What a write is known to carry when it reaches the database. */
  ghost predicate WriteOk(e: Entity, t: Table, w: Write, newId: nat) {
    match w
    case Insert(item, _) =>
      newId > 0 && newId !in t.rows && item.version == 1 && HasStatus(e, item.status)
      && Text.IsCanonical(item.code) && item.code != ""
    case Replace(_, expected, item, _) => item.version == expected + 1 && HasStatus(e, item.status)
    case Remove(_) => true
  }

  lemma RevisionIsFree(t: Table, id: nat, version: nat)
    requires HasChain(t, id)
    requires version == if id in t.rows then t.rows[id].rec.version + 1 else 1
    ensures !IsRevisionTaken(t, id, version)
  {
    if i :| 0 <= i < |t.revisions| && t.revisions[i].decisionId == id && t.revisions[i].version == version {
      RevisionsOfMembers(t.revisions, id, t.revisions[i]);
    }
  }

  lemma ChainGrows(t: Table, id: nat, row: Stored, r: Revision, i: nat)
    requires HasChain(t, i)
    requires r.decisionId == id && r.version == row.rec.version
    requires r.status == row.rec.status && r.evidence == row.rec.fields.evidence
    requires r.version == if id in t.rows then t.rows[id].rec.version + 1 else 1
    ensures HasChain(Table(t.rows[id := row], t.revisions + [r]), i)
  {
    RevisionsOfAppend(t.revisions, r, i);
  }

  lemma PutKeepsRows(e: Entity, t: Table, id: nat, row: Stored, revisions: seq<Revision>)
    requires TableOk(e, t) && RowOk(e, id, row.rec)
    requires forall i :: i in t.rows && t.rows[i].rec.code == row.rec.code ==> i == id
    ensures var rows := t.rows[id := row];
            && (forall i :: i in rows ==> RowOk(e, i, rows[i].rec))
            && HasDistinctCodes(Table(rows, revisions))
  {
  }

  lemma PutKeepsTable(e: Entity, t: Table, id: nat, row: Stored, item: Record, reason: string, req: Request)
    requires TableOk(e, t) && RowOk(e, id, row.rec)
    requires forall i :: i in t.rows && t.rows[i].rec.code == row.rec.code ==> i == id
    requires item.version == row.rec.version && item.status == row.rec.status
    requires item.fields.evidence == row.rec.fields.evidence
    requires item.version == if id in t.rows then t.rows[id].rec.version + 1 else 1
    ensures var r := PutWithRevision(e, t, id, row, item, reason, req); r.Success? && TableOk(e, r.value)
  {
    var rows := t.rows[id := row];
    var r := NewRevision(id, item, reason, req);
    PutKeepsRows(e, t, id, row, if e.Priority? then t.revisions + [r] else t.revisions);
    if e.Priority? {
      forall i: nat ensures HasChain(Table(rows, t.revisions + [r]), i) {
        assert HasChain(t, i);
        ChainGrows(t, id, row, r, i);
      }
      assert !IsRevisionTaken(t, id, item.version) by {
        assert HasChain(t, id);
        RevisionIsFree(t, id, item.version);
      }
    }
  }

  /** Every accepted write keeps the table in order, and the unique (decision, version) index never refuses one. */
  lemma ApplyKeepsTable(e: Entity, t: Table, w: Write, req: Request, newId: nat, now: int)
    requires TableOk(e, t) && WriteOk(e, t, w, newId)
    ensures var r := Apply(e, t, w, req, newId, now);
            if r.Success? then TableOk(e, r.value) else r.error != DuplicateRevision
  {
    var r := Apply(e, t, w, req, newId, now);
    match w
    case Insert(item, reason) =>
      if !IsCodeTaken(t, item.code) {
        PutKeepsTable(e, t, newId, Stored(item.(id := newId), false, now), item, reason, req);
      }
    case Replace(id, expected, item, reason) =>
      if IsLive(t, id) && t.rows[id].rec.version == expected {
        PutKeepsTable(e, t, id, Stored(Overwritten(t.rows[id].rec, item), false, now), item, reason, req);
      }
    case Remove(id) =>
      if r.Success? && e.Priority? {
        forall i: nat ensures HasChain(r.value, i) {
          assert HasChain(t, i);
        }
      }
  }

  function SeedRow(id: nat, code: string, status: Status, version: nat, text: Fields, now: int): Stored {
    Stored(Record(id, code, status, version, text, "operator"), false, now)
  }

  function SeedDraft(id: nat, code: string, text: Fields, snapshot: Record): Revision {
    Revision(id, 1, Draft, text.evidence, "seeded decision draft", "operator", "seed-" + code + "-create", snapshot)
  }

  function SeedReview(id: nat, code: string, status: Status, text: Fields, snapshot: Record): Revision {
    Revision(id, 2, status, text.evidence, "seeded independent review", "reviewer",
             "seed-" + code + "-review", snapshot)
  }

  /** The three decisions a fresh table is seeded with; their texts and snapshots are arbitrary here. */
  function SeededDecisions(a: Fields, b: Fields, c: Fields, snapshot: Record, now: int): Table {
    Table(
      map[1 := SeedRow(1, "PD-001", Draft, 1, a, now),
          2 := SeedRow(2, "PD-002", Observe, 2, b, now),
          3 := SeedRow(3, "PD-003", Restrict, 2, c, now)],
      [SeedDraft(1, "PD-001", a, snapshot),
       SeedDraft(2, "PD-002", b, snapshot), SeedReview(2, "PD-002", Observe, b, snapshot),
       SeedDraft(3, "PD-003", c, snapshot), SeedReview(3, "PD-003", Restrict, c, snapshot)])
  }

  lemma FiveRevisions(r: seq<Revision>, id: nat)
    requires |r| == 5
    ensures RevisionsOf(r, id)
         == OnlyOf(r[0], id) + OnlyOf(r[1], id) + OnlyOf(r[2], id) + OnlyOf(r[3], id) + OnlyOf(r[4], id)
  {
    RevisionsOfAppend([], r[0], id);
    RevisionsOfAppend(r[..1], r[1], id);
    RevisionsOfAppend(r[..2], r[2], id);
    RevisionsOfAppend(r[..3], r[3], id);
    RevisionsOfAppend(r[..4], r[4], id);
    assert [] + [r[0]] == r[..1];
    assert r[..1] + [r[1]] == r[..2];
    assert r[..2] + [r[2]] == r[..3];
    assert r[..3] + [r[3]] == r[..4];
    assert r[..4] + [r[4]] == r;
  }

  ghost function OnlyOf(r: Revision, id: nat): seq<Revision> {
    if r.decisionId == id then [r] else []
  }

  lemma SeedChains(a: Fields, b: Fields, c: Fields, snapshot: Record, now: int, id: nat)
    ensures HasChain(SeededDecisions(a, b, c, snapshot, now), id)
  {
    FiveRevisions(SeededDecisions(a, b, c, snapshot, now).revisions, id);
  }

  lemma SeedRows(a: Fields, b: Fields, c: Fields, snapshot: Record, now: int)
    ensures var t := SeededDecisions(a, b, c, snapshot, now);
            && HasDistinctCodes(t)
            && forall id :: id in t.rows ==> RowOk(Priority, id, t.rows[id].rec)
  {
    var t := SeededDecisions(a, b, c, snapshot, now);
    assert t.rows[1].rec.code[5] == '1' && t.rows[2].rec.code[5] == '2' && t.rows[3].rec.code[5] == '3';
  }

  /** The seeded decisions start in order. */
  lemma SeedsAreOk(a: Fields, b: Fields, c: Fields, snapshot: Record, now: int)
    ensures TableOk(Priority, SeededDecisions(a, b, c, snapshot, now))
  {
    SeedRows(a, b, c, snapshot, now);
    forall id: nat ensures HasChain(SeededDecisions(a, b, c, snapshot, now), id) {
      SeedChains(a, b, c, snapshot, now, id);
    }
  }
}
