/**
 What each request does, spelled out from its inputs: its answer when run alone,
 error by error and field by field, what its commit writes in any run, and what
 a service call leaves behind. Nothing here is said in terms of the functions
 that compute it.
 */
module Effects {
  import opened Outcomes
  import opened Status
  import opened Text
  import opened Records
  import opened Tables
  import opened AuditEntries
  import opened Protocol
  import opened Invariants
  import AuditLog
  import Discipline
  import Services

  /** The fields a record must have after a request that brought `input`. */
  ghost function Kept(input: Fields): Fields {
    Fields(
      Trim(input.name), Trim(input.description), Trim(input.facility), Trim(input.owner),
      Trim(input.category), input.riskLevel, input.metricValue, Trim(input.metricUnit),
      input.effectiveAt, Trim(input.evidence), ToUpper(Trim(input.relatedCode)))
  }

  /** A required text is blank; a bridge, inspection or defect needs neither evidence nor related code. */
  ghost predicate LacksText(e: Entity, input: Fields) {
    || Trim(input.name) == "" || Trim(input.facility) == "" || Trim(input.owner) == ""
    || (e == Priority && (Trim(input.evidence) == "" || Trim(input.relatedCode) == ""))
  }

  /** The text of the status a record is created in. */
  ghost function FirstText(e: Entity): string {
    match e
    case Bridge => "active"
    case Inspection => "planned"
    case Defect => "new"
    case Priority => "draft"
  }

  /** `r` is `t` with `row` put at `id` and, for a decision, the revision `link` appended. */
  ghost predicate Puts(e: Entity, t: Table, t': Table, id: nat, row: Stored, link: Revision) {
    && t'.rows == t.rows[id := row]
    && t'.revisions == if e == Priority then t.revisions + [link] else t.revisions
  }

  // ----- Run alone -----

  lemma PutSucceeds(e: Entity, t: Table, id: nat, row: Stored, item: Record, reason: string, req: Request)
    requires TableOk(e, t)
    requires item.version == if id in t.rows then t.rows[id].rec.version + 1 else 1
    ensures var r := PutWithRevision(e, t, id, row, item, reason, req);
            && r.Success?
            && Puts(e, t, r.value, id, row,
                    Revision(id, item.version, item.status, item.fields.evidence, Trim(reason),
                             req.actor, req.requestId, item))
  {
    if e.Priority? {
      assert HasChain(t, id);
      RevisionIsFree(t, id, item.version);
    }
  }

  lemma FixedReasons()
    ensures Trim("decision draft created") == "decision draft created"
    ensures Trim("draft business fields updated") == "draft business fields updated"
  {
    TrimmedIsFixed("decision draft created");
    TrimmedIsFixed("draft business fields updated");
  }

  lemma InitialText(e: Entity)
    ensures Label(Initial(e)) == FirstText(e)
  {
  }

  lemma CreationPlan(e: Entity, req: Request)
    requires req.op.Create?
    ensures var code, input := ToUpper(Trim(req.op.code)), req.op.input;
            if Trim(req.op.code) == "" || LacksText(e, input) then Plan(e, req, None) == Failure(InvalidInput)
            else
              Plan(e, req, None)
              == Success(Insert(Record(0, code, Initial(e), 1, Kept(input), if e == Priority then req.actor else ""),
                                "decision draft created"))
  {
  }

  /** A creation alone: what it is refused for, else the row and first revision it leaves. */
  lemma CreationAnswer(e: Entity, t: Table, req: Request, newId: nat, now: int)
    requires TableOk(e, t) && req.op.Create? && newId > 0 && newId !in t.rows
    ensures var x := Execute(e, t, req, newId, now);
            var code, input := ToUpper(Trim(req.op.code)), req.op.input;
            if Trim(req.op.code) == "" || LacksText(e, input) then x == Failure(InvalidInput)
            else if exists id :: id in t.rows && t.rows[id].rec.code == code then x == Failure(DuplicateCode)
            else
              && x.Success? && newId in x.value.rows
              && (var rec := x.value.rows[newId].rec;
                  && Label(rec.status) == FirstText(e)
                  && rec == Record(newId, code, rec.status, 1, Kept(input), if e == Priority then req.actor else "")
                  && Puts(e, t, x.value, newId, Stored(rec, false, now),
                          Revision(newId, 1, rec.status, Trim(input.evidence), "decision draft created",
                                   req.actor, req.requestId, rec.(id := 0))))
  {
    FixedReasons();
    InitialText(e);
    CreationPlan(e, req);
    var plan := Plan(e, req, None);
    if plan.Success? && !IsCodeTaken(t, plan.value.item.code) {
      var item := plan.value.item;
      PutSucceeds(e, t, newId, Stored(item.(id := newId), false, now), item, "decision draft created", req);
    }
  }

  /** The guard an edit fails, if it fails one, in the order in which they are checked. */
  ghost function EditRefusal(e: Entity, rec: Record, req: Request): Option<Error>
    requires req.op.Edit?
  {
    if e == Priority && rec.status != Draft then Some(DecisionLocked)
    else if e == Priority && req.actor != rec.preparedBy && req.role != Admin then Some(NotDecisionOwner)
    else if LacksText(e, req.op.input) then Some(InvalidInput)
    else None
  }

  lemma EditPlan(e: Entity, req: Request, read: Record)
    requires req.op.Edit? && Trim(read.code) != ""
    ensures var plan, refusal := Plan(e, req, Some(read)), EditRefusal(e, read, req);
            if refusal.Some? then plan == Failure(refusal.value)
            else
              plan == Success(Replace(req.op.id, req.op.expected,
                                      read.(fields := Kept(req.op.input), version := req.op.expected + 1),
                                      "draft business fields updated"))
  {
  }

  /** What a write planned on the row as it is comes to: it goes through at the row's own version. */
  ghost predicate IsReplaceAnswer(e: Entity, t: Table, req: Request, item: Record, reason: string, now: int,
                                  x: Result<Table, Error>)
    requires Discipline.IsVersioned(req.op) && IsLive(t, req.op.id)
  {
    var id := req.op.id;
    if t.rows[id].rec.version != req.op.expected then x == Failure(VersionConflict)
    else
      && x.Success?
      && Puts(e, t, x.value, id, Stored(item, false, now),
              Revision(id, item.version, item.status, item.fields.evidence, Trim(reason),
                       req.actor, req.requestId, item))
  }

  lemma ReplaceAnswer(e: Entity, t: Table, req: Request, item: Record, reason: string, newId: nat, now: int)
    requires TableOk(e, t) && Discipline.IsVersioned(req.op) && IsLive(t, req.op.id)
    requires Plan(e, req, Some(t.rows[req.op.id].rec)) == Success(Replace(req.op.id, req.op.expected, item, reason))
    requires var rec := t.rows[req.op.id].rec;
             && item.version == req.op.expected + 1
             && item.id == rec.id && item.code == rec.code && item.preparedBy == rec.preparedBy
    ensures IsReplaceAnswer(e, t, req, item, reason, now, Execute(e, t, req, newId, now))
  {
    var id := req.op.id;
    if t.rows[id].rec.version == req.op.expected {
      assert Overwritten(t.rows[id].rec, item) == item;
      PutSucceeds(e, t, id, Stored(item, false, now), item, reason, req);
    }
  }

  lemma MissingAnswer(e: Entity, t: Table, req: Request, newId: nat, now: int)
    requires !req.op.Create? && !IsLive(t, req.op.id)
    ensures Execute(e, t, req, newId, now) == Failure(NotFound)
  {
  }

  lemma RefusedAnswer(e: Entity, t: Table, req: Request, newId: nat, now: int, error: Error)
    requires !req.op.Create? && IsLive(t, req.op.id)
    requires Plan(e, req, Some(t.rows[req.op.id].rec)) == Failure(error)
    ensures Execute(e, t, req, newId, now) == Failure(error)
  {
  }

  /** What an edit is answered: the error of the first guard it fails, else the row and revision it leaves. */
  ghost predicate IsEditAnswer(e: Entity, t: Table, req: Request, now: int, x: Result<Table, Error>)
    requires req.op.Edit?
  {
    var id, input := req.op.id, req.op.input;
    if id !in t.rows || t.rows[id].deleted then x == Failure(NotFound)
    else
      var rec := t.rows[id].rec;
      var refusal := EditRefusal(e, rec, req);
      if refusal.Some? then x == Failure(refusal.value)
      else if rec.version != req.op.expected then x == Failure(VersionConflict)
      else
        var after := rec.(fields := Kept(input), version := rec.version + 1);
        && x.Success?
        && Puts(e, t, x.value, id, Stored(after, false, now),
                Revision(id, rec.version + 1, rec.status, Trim(input.evidence), "draft business fields updated",
                         req.actor, req.requestId, after))
  }

  lemma EditAnswered(e: Entity, t: Table, req: Request, now: int, x: Result<Table, Error>)
    requires req.op.Edit? && IsLive(t, req.op.id) && EditRefusal(e, t.rows[req.op.id].rec, req).None?
    requires var item := t.rows[req.op.id].rec.(fields := Kept(req.op.input), version := req.op.expected + 1);
             IsReplaceAnswer(e, t, req, item, "draft business fields updated", now, x)
    ensures IsEditAnswer(e, t, req, now, x)
  {
    FixedReasons();
  }

  lemma EditOfLive(e: Entity, t: Table, req: Request, newId: nat, now: int)
    requires TableOk(e, t) && req.op.Edit? && IsLive(t, req.op.id)
    requires EditRefusal(e, t.rows[req.op.id].rec, req).None?
    ensures IsEditAnswer(e, t, req, now, Execute(e, t, req, newId, now))
  {
    var rec := t.rows[req.op.id].rec;
    assert RowOk(e, req.op.id, rec);
    TrimmedIsFixed(rec.code);
    EditPlan(e, req, rec);
    var item := rec.(fields := Kept(req.op.input), version := req.op.expected + 1);
    ReplaceAnswer(e, t, req, item, "draft business fields updated", newId, now);
    EditAnswered(e, t, req, now, Execute(e, t, req, newId, now));
  }

  lemma EditAnswer(e: Entity, t: Table, req: Request, newId: nat, now: int)
    requires TableOk(e, t) && req.op.Edit?
    ensures IsEditAnswer(e, t, req, now, Execute(e, t, req, newId, now))
  {
    if !IsLive(t, req.op.id) {
      MissingAnswer(e, t, req, newId, now);
    } else {
      var rec := t.rows[req.op.id].rec;
      assert RowOk(e, req.op.id, rec);
      TrimmedIsFixed(rec.code);
      EditPlan(e, req, rec);
      if EditRefusal(e, rec, req).Some? {
        RefusedAnswer(e, t, req, newId, now, EditRefusal(e, rec, req).value);
      } else {
        EditOfLive(e, t, req, newId, now);
      }
    }
  }

  /** The guard a status change fails, if it fails one, in the order in which they are checked. */
  ghost function TransitionRefusal(e: Entity, rec: Record, req: Request): Option<Error>
    requires req.op.Transition?
  {
    if e == Priority && req.role != Reviewer && req.role != Admin then Some(ReviewRole)
    else if e == Priority && req.actor == rec.preparedBy then Some(SeparationOfDuty)
    else if !IsAllowed(e, rec.status, req.op.target) then Some(InvalidTransition)
    else None
  }

  lemma TransitionPlan(e: Entity, req: Request, read: Record)
    requires req.op.Transition?
    ensures var plan, refusal := Plan(e, req, Some(read)), TransitionRefusal(e, read, req);
            if refusal.Some? then plan == Failure(refusal.value)
            else
              && plan.Success? && plan.value.Replace?
              && (var to := plan.value.item.status;
                  && Label(to) == Trim(req.op.target)
                  && plan.value == Replace(req.op.id, req.op.expected,
                                           read.(status := to, version := req.op.expected + 1), Trim(req.op.reason)))
  {
    AllowedIff(e, req.op.target);
    if TransitionRefusal(e, read, req).None? {
      NamedIffLabel(Trim(req.op.target), Named(Trim(req.op.target)).value);
    }
  }

  /** What a status change is answered, likewise. */
  ghost predicate IsTransitionAnswer(e: Entity, t: Table, req: Request, now: int, x: Result<Table, Error>)
    requires req.op.Transition?
  {
    var id := req.op.id;
    if id !in t.rows || t.rows[id].deleted then x == Failure(NotFound)
    else
      var rec := t.rows[id].rec;
      var refusal := TransitionRefusal(e, rec, req);
      if refusal.Some? then x == Failure(refusal.value)
      else if rec.version != req.op.expected then x == Failure(VersionConflict)
      else
        && x.Success? && id in x.value.rows
        && (var to := x.value.rows[id].rec.status;
            var after := rec.(status := to, version := rec.version + 1);
            && Label(to) == Trim(req.op.target)
            && Puts(e, t, x.value, id, Stored(after, false, now),
                    Revision(id, rec.version + 1, to, rec.fields.evidence, Trim(req.op.reason),
                             req.actor, req.requestId, after)))
  }

  lemma TransitionAnswered(e: Entity, t: Table, req: Request, to: Status, now: int, x: Result<Table, Error>)
    requires req.op.Transition? && IsLive(t, req.op.id) && TransitionRefusal(e, t.rows[req.op.id].rec, req).None?
    requires Label(to) == Trim(req.op.target)
    requires var item := t.rows[req.op.id].rec.(status := to, version := req.op.expected + 1);
             IsReplaceAnswer(e, t, req, item, Trim(req.op.reason), now, x)
    ensures IsTransitionAnswer(e, t, req, now, x)
  {
    TrimIsTrimmed(req.op.reason);
    TrimmedIsFixed(Trim(req.op.reason));
  }

  lemma TransitionOfLive(e: Entity, t: Table, req: Request, newId: nat, now: int)
    requires TableOk(e, t) && req.op.Transition? && IsLive(t, req.op.id)
    requires TransitionRefusal(e, t.rows[req.op.id].rec, req).None?
    ensures IsTransitionAnswer(e, t, req, now, Execute(e, t, req, newId, now))
  {
    var rec := t.rows[req.op.id].rec;
    TransitionPlan(e, req, rec);
    var to := Plan(e, req, Some(rec)).value.item.status;
    var item := rec.(status := to, version := req.op.expected + 1);
    ReplaceAnswer(e, t, req, item, Trim(req.op.reason), newId, now);
    TransitionAnswered(e, t, req, to, now, Execute(e, t, req, newId, now));
  }

  lemma TransitionAnswer(e: Entity, t: Table, req: Request, newId: nat, now: int)
    requires TableOk(e, t) && req.op.Transition?
    ensures IsTransitionAnswer(e, t, req, now, Execute(e, t, req, newId, now))
  {
    if !IsLive(t, req.op.id) {
      MissingAnswer(e, t, req, newId, now);
    } else {
      var rec := t.rows[req.op.id].rec;
      TransitionPlan(e, req, rec);
      if TransitionRefusal(e, rec, req).Some? {
        RefusedAnswer(e, t, req, newId, now, TransitionRefusal(e, rec, req).value);
      } else {
        TransitionOfLive(e, t, req, newId, now);
      }
    }
  }

  /** The graph has an edge from the status to one with this text, but for surrounding space. */
  ghost predicate IsAllowed(e: Entity, from: Status, target: string) {
    exists to :: Label(to) == Trim(target) && CanTransition(Transitions(e), from, to)
  }

  lemma AllowedIff(e: Entity, target: string)
    ensures var to := Named(Trim(target));
            forall from :: IsAllowed(e, from, target) <==> to.Some? && CanTransition(Transitions(e), from, to.value)
  {
    forall s: Status ensures Label(s) == Trim(target) <==> Named(Trim(target)) == Some(s) {
      NamedIffLabel(Trim(target), s);
    }
  }

  /** A deletion alone: it only marks the row. */
  lemma DeletionAnswer(e: Entity, t: Table, req: Request, newId: nat, now: int)
    requires req.op.Delete?
    ensures var x, id := Execute(e, t, req, newId, now), req.op.id;
            if id !in t.rows || t.rows[id].deleted then x == Failure(NotFound)
            else if e == Priority && t.rows[id].rec.status != Draft then x == Failure(DecisionLocked)
            else x == Success(Table(t.rows[id := Stored(t.rows[id].rec, true, t.rows[id].updatedAt)], t.revisions))
  {
  }

  // ----- In a run -----

  lemma PutWrites(e: Entity, t: Table, id: nat, row: Stored, item: Record, reason: string, req: Request)
    requires PutWithRevision(e, t, id, row, item, reason, req).Success?
    ensures Puts(e, t, PutWithRevision(e, t, id, row, item, reason, req).value, id, row,
                 Revision(id, item.version, item.status, item.fields.evidence, Trim(reason),
                          req.actor, req.requestId, item))
  {
  }

  /** What a write of each kind leaves, in the table it meets. */
  ghost predicate Writes(e: Entity, t: Table, t': Table, c: Entry) {
    var req, now := c.request, c.now;
    match req.op
    case Create(code, input) =>
      && c.id !in t.rows && Label(c.after.status) == FirstText(e)
      && c.after == Record(c.id, ToUpper(Trim(code)), c.after.status, 1, Kept(input),
                           if e == Priority then req.actor else "")
      && Puts(e, t, t', c.id, Stored(c.after, false, now),
              Revision(c.id, 1, c.after.status, Trim(input.evidence), "decision draft created",
                       req.actor, req.requestId, c.after.(id := 0)))
    case Edit(id, expected, input) =>
      && c.id == id && IsLive(t, id) && t.rows[id].rec.version == expected && c.read.Some?
      && c.after == c.read.value.(fields := Kept(input), version := expected + 1)
      && Puts(e, t, t', id, Stored(c.after, false, now),
              Revision(id, expected + 1, c.read.value.status, Trim(input.evidence), "draft business fields updated",
                       req.actor, req.requestId, c.after))
    case Transition(id, expected, target, reason) =>
      && c.id == id && IsLive(t, id) && t.rows[id].rec.version == expected && c.read.Some?
      && Label(c.after.status) == Trim(target)
      && CanTransition(Transitions(e), c.read.value.status, c.after.status)
      && c.after == c.read.value.(status := c.after.status, version := expected + 1)
      && Puts(e, t, t', id, Stored(c.after, false, now),
              Revision(id, expected + 1, c.after.status, c.read.value.fields.evidence, Trim(reason),
                       req.actor, req.requestId, c.after))
    case Delete(id) =>
      && c.id == id && IsLive(t, id)
      && t' == Table(t.rows[id := Stored(t.rows[id].rec, true, t.rows[id].updatedAt)], t.revisions)
  }

  lemma CreationWrites(e: Entity, t: Table, req: Request, newId: nat, now: int)
    requires req.op.Create? && IsFreshFor(t, req.op, newId) && Plan(e, req, None).Success?
    requires Apply(e, t, Plan(e, req, None).value, req, newId, now).Success?
    ensures var t' := Apply(e, t, Plan(e, req, None).value, req, newId, now).value;
            newId in t'.rows && Writes(e, t, t', EntryFor(t, t', newId, req, now, None))
  {
    FixedReasons();
    InitialText(e);
    var item := NewRecord(e, req.op.code, req.op.input, req.actor);
    PutWrites(e, t, newId, Stored(item.(id := newId), false, now), item, "decision draft created", req);
  }

  lemma EditItem(e: Entity, req: Request, read: Record)
    requires req.op.Edit? && Plan(e, req, Some(read)).Success?
    ensures Plan(e, req, Some(read))
         == Success(Replace(req.op.id, req.op.expected,
                            read.(fields := Kept(req.op.input), version := req.op.expected + 1),
                            "draft business fields updated"))
  {
  }

  /** A replacement that goes through overwrites the live row at its version with the item it carries. */
  lemma ReplaceWrites(e: Entity, t: Table, read: Record, w: Write, req: Request, now: int)
    requires w.Replace? && Apply(e, t, w, req, 0, now).Success?
    requires w.id in t.rows ==> IsSnapshotOf(e, read, t.rows[w.id].rec)
    requires w.item.id == read.id && w.item.code == read.code && w.item.preparedBy == read.preparedBy
    ensures IsLive(t, w.id) && t.rows[w.id].rec.version == w.expected
    ensures Puts(e, t, Apply(e, t, w, req, 0, now).value, w.id, Stored(w.item, false, now),
                 Revision(w.id, w.item.version, w.item.status, w.item.fields.evidence, Trim(w.reason),
                          req.actor, req.requestId, w.item))
  {
    assert Overwritten(t.rows[w.id].rec, w.item) == w.item;
    PutWrites(e, t, w.id, Stored(w.item, false, now), w.item, w.reason, req);
  }

  lemma EditEntryWrites(e: Entity, t: Table, t': Table, req: Request, read: Record, now: int, item: Record)
    requires req.op.Edit? && IsLive(t, req.op.id) && t.rows[req.op.id].rec.version == req.op.expected
    requires item == read.(fields := Kept(req.op.input), version := req.op.expected + 1)
    requires Puts(e, t, t', req.op.id, Stored(item, false, now),
                  Revision(req.op.id, item.version, item.status, item.fields.evidence,
                           Trim("draft business fields updated"), req.actor, req.requestId, item))
    ensures req.op.id in t'.rows && Writes(e, t, t', EntryFor(t, t', req.op.id, req, now, Some(read)))
  {
    FixedReasons();
  }

  lemma EditWrites(e: Entity, t: Table, req: Request, read: Record, now: int)
    requires req.op.Edit? && WritingOk(e, t, req, Some(read))
    requires Apply(e, t, Plan(e, req, Some(read)).value, req, 0, now).Success?
    ensures var t' := Apply(e, t, Plan(e, req, Some(read)).value, req, 0, now).value;
            req.op.id in t'.rows && Writes(e, t, t', EntryFor(t, t', req.op.id, req, now, Some(read)))
  {
    EditItem(e, req, read);
    var w := Plan(e, req, Some(read)).value;
    ReplaceWrites(e, t, read, w, req, now);
    EditEntryWrites(e, t, Apply(e, t, w, req, 0, now).value, req, read, now, w.item);
  }

  lemma TransitionWrites(e: Entity, t: Table, req: Request, read: Record, now: int)
    requires req.op.Transition? && WritingOk(e, t, req, Some(read))
    requires Apply(e, t, Plan(e, req, Some(read)).value, req, 0, now).Success?
    ensures var t' := Apply(e, t, Plan(e, req, Some(read)).value, req, 0, now).value;
            req.op.id in t'.rows && Writes(e, t, t', EntryFor(t, t', req.op.id, req, now, Some(read)))
  {
    TransitionPlan(e, req, read);
    TransitionEdge(e, req, read);
    TrimIsTrimmed(req.op.reason);
    TrimmedIsFixed(Trim(req.op.reason));
    ReplaceWrites(e, t, read, Plan(e, req, Some(read)).value, req, now);
  }

  lemma TransitionEdge(e: Entity, req: Request, read: Record)
    requires req.op.Transition? && Plan(e, req, Some(read)).Success?
    ensures CanTransition(Transitions(e), read.status, Plan(e, req, Some(read)).value.item.status)
  {
  }

  lemma DeletionWrites(e: Entity, t: Table, req: Request, read: Option<Record>, now: int)
    requires req.op.Delete? && WritingOk(e, t, req, read)
    requires Apply(e, t, Plan(e, req, read).value, req, 0, now).Success?
    ensures var t' := Apply(e, t, Plan(e, req, read).value, req, 0, now).value;
            req.op.id in t'.rows && Writes(e, t, t', EntryFor(t, t', req.op.id, req, now, read))
  {
  }

  lemma WrittenIsEntry(e: Entity, s: State, step: Step)
    requires WrittenBy(e, s, step).Some?
    ensures step.Commit? && step.token in s.pending && s.pending[step.token].Writing?
    ensures var Writing(req, read) := s.pending[step.token];
            && Plan(e, req, read).Success? && IsFreshFor(s.table, req.op, step.newId)
            && (var x := Apply(e, s.table, Plan(e, req, read).value, req, step.newId, step.now);
                var id := TargetOf(req.op, step.newId);
                && x.Success? && Next(e, s, step).table == x.value && id in x.value.rows
                && WrittenBy(e, s, step).value == EntryFor(s.table, x.value, id, req, step.now, read))
  {
  }

  /** The id and time given to a write do not matter to an edit, a status change or a deletion, but for the time. */
  lemma OnlyInsertsTakeIds(e: Entity, t: Table, w: Write, req: Request, newId: nat, now: int)
    requires !w.Insert?
    ensures Apply(e, t, w, req, newId, now) == Apply(e, t, w, req, 0, now)
  {
  }

  lemma StepWrites(e: Entity, t0: Table, s: State, step: Step)
    requires Inv(e, t0, s) && WrittenBy(e, s, step).Some?
    ensures WrittenBy(e, s, step).value.now == step.now
    ensures Writes(e, s.table, Next(e, s, step).table, WrittenBy(e, s, step).value)
  {
    WrittenIsEntry(e, s, step);
    var Writing(req, read) := s.pending[step.token];
    assert WritingOk(e, s.table, req, read);
    if req.op.Create? {
      CreationWrites(e, s.table, req, step.newId, step.now);
    } else {
      OnlyInsertsTakeIds(e, s.table, Plan(e, req, read).value, req, step.newId, step.now);
      match req.op
      case Edit(_, _, _) => EditWrites(e, s.table, req, read.value, step.now);
      case Transition(_, _, _, _) => TransitionWrites(e, s.table, req, read.value, step.now);
      case Delete(_) => DeletionWrites(e, s.table, req, read, step.now);
    }
  }

  /**
   Every commit of every run, whatever the clients do, writes just what its
   request brought: the fields each in their place, the named status, the next
   version, and for a decision a revision with the request's own reason.
   */
  lemma CommitWrites(e: Entity, t0: Table, steps: seq<Step>, step: Step)
    requires TableOk(e, t0) && WrittenBy(e, Run(e, Start(t0), steps), step).Some?
    ensures var s := Run(e, Start(t0), steps);
            var c := WrittenBy(e, s, step).value;
            c.now == step.now && Writes(e, s.table, Next(e, s, step).table, c)
  {
    RunKeepsInv(e, t0, steps);
    StepWrites(e, t0, Run(e, Start(t0), steps), step);
  }

  // ----- In a service call -----

  ghost function NameOf(e: Entity): (string, string) {
    match e
    case Bridge => ("BridgeAsset", "桥梁资产")
    case Inspection => ("InspectionRound", "检查批次")
    case Defect => ("DefectFinding", "缺陷发现")
    case Priority => ("PriorityDecision", "优先级决定")
  }

  /** The audit entry owed to a request that found a row in status `was` and left it in `now`. */
  ghost function Owed(e: Entity, req: Request, id: nat, was: string, now: string): AuditEntry {
    var actor := if req.actor == "" then "system" else req.actor;
    var requestId := if req.requestId == "" then "untracked" else req.requestId;
    var (name, title) := NameOf(e);
    match req.op
    case Create(_, _) => AuditEntry(actor, requestId, "create", name, id, "", now, "created " + title)
    case Edit(_, _, _) => AuditEntry(actor, requestId, "update", name, id, was, was, "updated business fields")
    case Transition(_, _, _, reason) => AuditEntry(actor, requestId, "transition", name, id, was, now, reason)
    case Delete(_) => AuditEntry(actor, requestId, "delete", name, id, was, "deleted", "soft deleted " + title)
  }

  /** Every entry of every trail says what its commit was: who, on what, from where to where, and why. */
  lemma AuditIsOwed(e: Entity, c: Entry)
    ensures AuditOf(e, c)
         == Owed(e, c.request, c.id, if c.read.Some? then Label(c.read.value.status) else "", Label(c.after.status))
  {
  }

  /** A call that is refused leaves table and log alone and says why. */
  lemma RefusedCallLeaves(e: Entity, t: Table, log: seq<AuditLog.Timed>, req: Request, newId: nat, now: int,
                          stored: bool)
    requires Execute(e, t, req, newId, now).Failure?
    ensures Services.TableAfter(e, t, req, newId, now) == t
    ensures Services.LogAfter(e, t, log, req, newId, now, stored) == log
    ensures Services.ReplyTo(e, t, req, newId, now) == Failure(Execute(e, t, req, newId, now).error)
  {
  }

  /** One that succeeds leaves what it does alone, one audit entry if the database takes it, and reports the row. */
  lemma AcceptedCallLeaves(e: Entity, t: Table, log: seq<AuditLog.Timed>, req: Request, newId: nat, now: int,
                           stored: bool)
    requires Execute(e, t, req, newId, now).Success?
    ensures var t', id := Execute(e, t, req, newId, now).value, if req.op.Create? then newId else req.op.id;
            && Services.TableAfter(e, t, req, newId, now) == t'
            && id in t'.rows && (!req.op.Create? ==> id in t.rows)
            && Services.ReplyTo(e, t, req, newId, now) == Success(t'.rows[id].rec)
            && (var was := if req.op.Create? then "" else Label(t.rows[id].rec.status);
                var entry := Owed(e, req, id, was, Label(t'.rows[id].rec.status));
                Services.LogAfter(e, t, log, req, newId, now, stored)
                == if stored then log + [AuditLog.Timed(entry, now)] else log)
  {
    var t', id := Execute(e, t, req, newId, now).value, TargetOf(req.op, newId);
    AppliedRowExists(e, t, req, ReadFor(t, req.op), newId, now);
    AuditIsOwed(e, EntryFor(t, t', id, req, now, ReadFor(t, req.op)));
  }
}
