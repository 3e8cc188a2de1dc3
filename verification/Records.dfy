/**
 The values the services work on, and one request as a pure function of the
 table. Every write request is a read of one row, guards on that snapshot
 (`Plan`) and one atomic conditional write (`Apply`). The service classes are
 proved against these functions, and the protocol runs the same two halves
 apart with other requests in between.
 */
module Records {
  import opened Outcomes
  import opened Status
  import opened Text

  datatype Role = Viewer | Operator | Reviewer | Admin

  datatype Fields = Fields(
    name: string, description: string, facility: string, owner: string,
    category: string, riskLevel: string, metricValue: real, metricUnit: string,
    effectiveAt: int, evidence: string, relatedCode: string)

  /** A bridge, inspection, defect or decision. Only a decision names a preparer. */
  datatype Record = Record(
    id: nat, code: string, status: Status, version: nat, fields: Fields, preparedBy: string)

  /** One link of a decision's history; the snapshot is the record as it was handed to the write. */
  datatype Revision = Revision(
    decisionId: nat, version: nat, status: Status, evidence: string,
    reason: string, actor: string, requestId: string, snapshot: Record)

  /** A table row: deletion only marks it, and `updatedAt` is the write's time. */
  datatype Stored = Stored(rec: Record, deleted: bool, updatedAt: int)

  datatype Table = Table(rows: map<nat, Stored>, revisions: seq<Revision>)

  datatype Operation =
    | Create(code: string, input: Fields)
    | Edit(id: nat, expected: nat, input: Fields)
    | Transition(id: nat, expected: nat, target: string, reason: string)
    | Delete(id: nat)

  datatype Request = Request(op: Operation, actor: string, role: Role, requestId: string)

  datatype Error =
    | NotFound | InvalidInput | InvalidTransition
    | DecisionLocked | NotDecisionOwner | ReviewRole | SeparationOfDuty
    | VersionConflict | DuplicateCode | DuplicateRevision | AuditFailed

  /** The write a request asks for once its guards have passed. */
  datatype Write =
    | Insert(item: Record, reason: string)
    | Replace(id: nat, expected: nat, item: Record, reason: string)
    | Remove(id: nat)

  /** Surrounding space is dropped from every text but the risk level, which the binding restricts to a list. */
  function Clean(input: Fields): Fields {
    input.(
      name := Trim(input.name), description := Trim(input.description),
      facility := Trim(input.facility), owner := Trim(input.owner),
      category := Trim(input.category), metricUnit := Trim(input.metricUnit),
      evidence := Trim(input.evidence), relatedCode := Canonical(input.relatedCode))
  }

  /** The texts that may not be blank; a decision also needs evidence and a related code. */
  predicate HasBusinessFields(e: Entity, code: string, input: Fields) {
    && Trim(code) != "" && Trim(input.name) != "" && Trim(input.facility) != "" && Trim(input.owner) != ""
    && (e.Priority? ==> Trim(input.evidence) != "" && Trim(input.relatedCode) != "")
  }

  function NewRecord(e: Entity, code: string, input: Fields, actor: string): Record {
    Record(0, Canonical(code), Initial(e), 1, Clean(input), if e.Priority? then actor else "")
  }

  function PlanCreate(e: Entity, req: Request): Result<Write, Error>
    requires req.op.Create?
  {
    if !HasBusinessFields(e, req.op.code, req.op.input) then Failure(InvalidInput)
    else Success(Insert(NewRecord(e, req.op.code, req.op.input, req.actor), "decision draft created"))
  }

  function PlanEdit(e: Entity, req: Request, current: Record): Result<Write, Error>
    requires req.op.Edit?
  {
    if e.Priority? && current.status != Initial(e) then Failure(DecisionLocked)
    else if e.Priority? && req.actor != current.preparedBy && req.role != Admin then Failure(NotDecisionOwner)
    else if !HasBusinessFields(e, current.code, req.op.input) then Failure(InvalidInput)
    else
      var item := current.(fields := Clean(req.op.input), version := req.op.expected + 1);
      Success(Replace(req.op.id, req.op.expected, item, "draft business fields updated"))
  }

  function PlanTransition(e: Entity, req: Request, current: Record): Result<Write, Error>
    requires req.op.Transition?
  {
    var target := Named(Trim(req.op.target));
    if e.Priority? && req.role != Reviewer && req.role != Admin then Failure(ReviewRole)
    else if e.Priority? && req.actor == current.preparedBy then Failure(SeparationOfDuty)
    else if target.None? || !CanTransition(Transitions(e), current.status, target.value) then
      Failure(InvalidTransition)
    else
      var item := current.(status := target.value, version := req.op.expected + 1);
      Success(Replace(req.op.id, req.op.expected, item, Trim(req.op.reason)))
  }

  function PlanDelete(e: Entity, req: Request, current: Record): Result<Write, Error>
    requires req.op.Delete?
  {
    if e.Priority? && current.status != Initial(e) then Failure(DecisionLocked)
    else Success(Remove(req.op.id))
  }

  /** The guards of a request, on the snapshot it read. A create reads nothing. */
  function Plan(e: Entity, req: Request, read: Option<Record>): Result<Write, Error> {
    if req.op.Create? then PlanCreate(e, req)
    else if read.None? then Failure(NotFound)
    else if req.op.Edit? then PlanEdit(e, req, read.value)
    else if req.op.Transition? then PlanTransition(e, req, read.value)
    else PlanDelete(e, req, read.value)
  }

  predicate IsLive(t: Table, id: nat) {
    id in t.rows && !t.rows[id].deleted
  }

  /** A read by id; deleted rows are not seen. */
  function Find(t: Table, id: nat): Option<Record> {
    if IsLive(t, id) then Some(t.rows[id].rec) else None
  }

  /** The snapshot a request reads before its guards. */
  function ReadFor(t: Table, op: Operation): Option<Record> {
    if op.Create? then None else Find(t, op.id)
  }

  /** The unique code index counts deleted rows too. */
  predicate IsCodeTaken(t: Table, code: string) {
    exists id :: id in t.rows && t.rows[id].rec.code == code
  }

  predicate IsRevisionTaken(t: Table, id: nat, version: nat) {
    exists i :: 0 <= i < |t.revisions| && t.revisions[i].decisionId == id && t.revisions[i].version == version
  }

  function NewRevision(id: nat, item: Record, reason: string, req: Request): Revision {
    Revision(id, item.version, item.status, item.fields.evidence, Trim(reason), req.actor, req.requestId, item)
  }

  /** What an update leaves of a row: id, code and preparer are never written. */
  function Overwritten(before: Record, item: Record): Record {
    item.(id := before.id, code := before.code, preparedBy := before.preparedBy)
  }

  /** Puts the row and, for a decision, its revision; both or neither. */
  function PutWithRevision(e: Entity, t: Table, id: nat, row: Stored, item: Record, reason: string, req: Request)
    : Result<Table, Error>
  {
    var rows := t.rows[id := row];
    if !e.Priority? then Success(Table(rows, t.revisions))
    else if IsRevisionTaken(t, id, item.version) then Failure(DuplicateRevision)
    else Success(Table(rows, t.revisions + [NewRevision(id, item, reason, req)]))
  }

  /** One transaction at time `now`; `newId` is the id the database gives an inserted row. */
  function Apply(e: Entity, t: Table, w: Write, req: Request, newId: nat, now: int): Result<Table, Error> {
    match w
    case Insert(item, reason) =>
      if IsCodeTaken(t, item.code) then Failure(DuplicateCode)
      else PutWithRevision(e, t, newId, Stored(item.(id := newId), false, now), item, reason, req)
    case Replace(id, expected, item, reason) =>
      if !IsLive(t, id) || t.rows[id].rec.version != expected then Failure(VersionConflict)
      else PutWithRevision(e, t, id, Stored(Overwritten(t.rows[id].rec, item), false, now), item, reason, req)
    case Remove(id) =>
      if !IsLive(t, id) then Failure(NotFound)
      else Success(t.(rows := t.rows[id := t.rows[id].(deleted := true)]))
  }

  /** A whole request run alone: its read, its guards and its write see the same table. */
  function Execute(e: Entity, t: Table, req: Request, newId: nat, now: int): Result<Table, Error> {
    var plan := Plan(e, req, ReadFor(t, req.op));
    if plan.Failure? then Failure(plan.error) else Apply(e, t, plan.value, req, newId, now)
  }

  /** The revisions of one decision, in the order in which they were written. */
  function RevisionsOf(revisions: seq<Revision>, id: nat): seq<Revision> {
    if revisions == [] then []
    else
      var front, last := revisions[..|revisions| - 1], revisions[|revisions| - 1];
      RevisionsOf(front, id) + (if last.decisionId == id then [last] else [])
  }

  lemma RevisionsOfAppend(revisions: seq<Revision>, r: Revision, id: nat)
    ensures RevisionsOf(revisions + [r], id)
         == RevisionsOf(revisions, id) + (if r.decisionId == id then [r] else [])
  {
    assert (revisions + [r])[..|revisions|] == revisions;
  }

  /** Selecting keeps exactly the revisions of that decision. */
  lemma {:induction false} RevisionsOfMembers(revisions: seq<Revision>, id: nat, r: Revision)
    ensures r in RevisionsOf(revisions, id) <==> r in revisions && r.decisionId == id
  {
    if revisions != [] {
      var front, last := revisions[..|revisions| - 1], revisions[|revisions| - 1];
      RevisionsOfMembers(front, id, r);
      assert revisions == front + [last];
    }
  }
}
