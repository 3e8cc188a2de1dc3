/**
 The service of bridges, inspections and defects: three copies of one program
 over three graphs. Each method is proved to do, table and log alike, what its
 request does when run alone.
 */
module RecordService {
  import opened Outcomes
  import opened Status
  import opened Text
  import opened Records
  import opened AuditEntries
  import AuditLog
  import Store
  import opened Services

  class Service {
    const entity: Entity
    const store: Store.RecordStore
    const audits: AuditLog.AuditStore

    ghost predicate Valid()
      reads store
    {
      !entity.Priority? && store.Valid()
    }

    constructor (entity: Entity, store: Store.RecordStore, audits: AuditLog.AuditStore)
      requires !entity.Priority? && store.Valid()
      ensures Valid() && this.entity == entity && this.store == store && this.audits == audits
    {
      this.entity, this.store, this.audits := entity, store, audits;
    }

    method Create(code: string, input: Fields, actor: string, requestId: string, now: int, stored: bool)
      returns (reply: Result<Record, Error>)
      requires Valid()
      modifies store, audits
      ensures Valid()
      ensures var req, id := Request(Records.Create(code, input), actor, Operator, requestId), old(store.nextId);
              && reply == ReplyTo(entity, old(store.View()), req, id, now)
              && store.View() == TableAfter(entity, old(store.View()), req, id, now)
              && audits.entries == LogAfter(entity, old(store.View()), old(audits.entries), req, id, now, stored)
    {
      if !HasBusinessFields(entity, code, input) {
        return Failure(InvalidInput);
      }
      var item := Record(0, ToUpper(Trim(code)), Initial(entity), 1, Clean(input), "");
      var r := store.Create(item, now);
      if r.Failure? {
        return Failure(r.error);
      }
      item := item.(id := r.value);
      var _ := audits.Audit(actor, requestId, "create", TypeName(entity), item.id, "", Label(item.status),
                            "created " + Title(entity), now, stored);
      reply := Success(item);
    }

    /** The write of an edit or status change, whatever the table has become since its guards passed. */
    method Save(id: nat, expected: nat, item: Record, reason: string, req: Request, now: int)
      returns (r: Result<nat, Error>)
      requires Valid()
      modifies store
      ensures Valid()
      ensures var x := Apply(entity, old(store.View()), Replace(id, expected, item, reason), req, 0, now);
              if r.Success? then x == Success(store.View())
              else x == Failure(r.error) && store.View() == old(store.View())
    {
      r := store.Update(id, expected, item, now);
    }

    /** The same write when nobody has written since the read. */
    method SaveUndisturbed(id: nat, expected: nat, item: Record, reason: string, req: Request, now: int)
      returns (r: Result<nat, Error>)
      requires Valid()
      requires var t := store.View();
               Execute(entity, t, req, 0, now) == Apply(entity, t, Replace(id, expected, item, reason), req, 0, now)
      modifies store
      ensures Valid()
      ensures var x := Execute(entity, old(store.View()), req, 0, now);
              if r.Success? then x == Success(store.View())
              else x == Failure(r.error) && store.View() == old(store.View())
    {
      r := Save(id, expected, item, reason, req, now);
    }

    /** Appends the audit entry of a request that has just been written. */
    method Log(id: nat, action: string, before: string, after: string, detail: string,
               req: Request, now: int, stored: bool, ghost t: Table)
      returns (ok: bool)
      requires Valid() && action != ""
      requires Execute(entity, t, req, 0, now).Success?
      requires EntryAfter(entity, t, req, 0, now)
            == NewAudit(req.actor, req.requestId, action, TypeName(entity), id, before, after, detail)
      modifies audits
      ensures ok == stored
      ensures audits.entries == LogAfter(entity, t, old(audits.entries), req, 0, now, stored)
    {
      ok := audits.Audit(req.actor, req.requestId, action, TypeName(entity), id, before, after, detail, now, stored);
    }

    /** What is left of an edit once its guards have passed. */
    method WriteEdit(read: Record, id: nat, expected: nat, input: Fields, req: Request, now: int, stored: bool)
      returns (reply: Result<Record, Error>)
      requires Valid() && req.op == Edit(id, expected, input) && Find(store.View(), id) == Some(read)
      requires HasBusinessFields(entity, read.code, input)
      modifies store, audits
      ensures Valid()
      ensures reply == ReplyTo(entity, old(store.View()), req, 0, now)
      ensures store.View() == TableAfter(entity, old(store.View()), req, 0, now)
      ensures audits.entries == LogAfter(entity, old(store.View()), old(audits.entries), req, 0, now, stored)
    {
      var current := OverwriteFields(read, expected, input);
      EditIsApplied(entity, store.View(), req, read, now);
      var r := SaveUndisturbed(id, expected, current, "draft business fields updated", req, now);
      if r.Failure? {
        Refused(entity, old(store.View()), old(audits.entries), req, 0, now, stored, r.error);
        return Failure(r.error);
      }
      Accepted(entity, old(store.View()), store.View(), req, 0, now);
      EditEntry(entity, old(store.View()), req, now);
      var _ := Log(id, "update", Label(current.status), Label(current.status), "updated business fields",
                   req, now, stored, old(store.View()));
      var updated := store.Get(id);
      reply := if updated.Some? then Success(updated.value) else Failure(NotFound);
    }

    method Update(id: nat, expected: nat, input: Fields, actor: string, requestId: string, now: int, stored: bool)
      returns (reply: Result<Record, Error>)
      requires Valid()
      modifies store, audits
      ensures Valid()
      ensures var req := Request(Edit(id, expected, input), actor, Operator, requestId);
              && reply == ReplyTo(entity, old(store.View()), req, 0, now)
              && store.View() == TableAfter(entity, old(store.View()), req, 0, now)
              && audits.entries == LogAfter(entity, old(store.View()), old(audits.entries), req, 0, now, stored)
    {
      var req := Request(Edit(id, expected, input), actor, Operator, requestId);
      var read := store.Get(id);
      if read.None? {
        GuardRefuses(entity, old(store.View()), old(audits.entries), req, 0, now, stored, NotFound);
        return Failure(NotFound);
      }
      var current := read.value;
      if !HasBusinessFields(entity, current.code, input) {
        GuardRefuses(entity, old(store.View()), old(audits.entries), req, 0, now, stored, InvalidInput);
        return Failure(InvalidInput);
      }
      reply := WriteEdit(current, id, expected, input, req, now, stored);
    }

    /** What is left of a status change once its guards have passed. */
    method WriteTransition(read: Record, id: nat, expected: nat, to: Status, reason: string, req: Request,
                           now: int, stored: bool)
      returns (reply: Result<Record, Error>)
      requires Valid() && Find(store.View(), id) == Some(read)
      requires req.op.Transition? && req.op.id == id && req.op.expected == expected && req.op.reason == reason
      requires var t, item := store.View(), read.(status := to, version := expected + 1);
               Execute(entity, t, req, 0, now)
               == Apply(entity, t, Replace(id, expected, item, Trim(reason)), req, 0, now)
      requires var t := store.View();
               Execute(entity, t, req, 0, now).Success? ==>
                 EntryAfter(entity, t, req, 0, now)
                 == NewAudit(req.actor, req.requestId, "transition", TypeName(entity), id,
                             Label(read.status), Label(to), reason)
      modifies store, audits
      ensures Valid()
      ensures var told := ReplyTo(entity, old(store.View()), req, 0, now);
              reply == if told.Success? && !stored then Failure(AuditFailed) else told
      ensures store.View() == TableAfter(entity, old(store.View()), req, 0, now)
      ensures audits.entries == LogAfter(entity, old(store.View()), old(audits.entries), req, 0, now, stored)
    {
      var current := read.(status := to);
      current := current.(version := expected + 1);
      var r := SaveUndisturbed(id, expected, current, Trim(reason), req, now);
      if r.Failure? {
        Refused(entity, old(store.View()), old(audits.entries), req, 0, now, stored, r.error);
        return Failure(r.error);
      }
      Accepted(entity, old(store.View()), store.View(), req, 0, now);
      var ok := Log(id, "transition", Label(read.status), Label(to), reason, req, now, stored, old(store.View()));
      if !ok {
        return Failure(AuditFailed);
      }
      var updated := store.Get(id);
      reply := if updated.Some? then Success(updated.value) else Failure(NotFound);
    }

    /** Unlike the others, a status change whose audit entry is lost is reported as failed, though it stays. */
    method Transition(id: nat, expected: nat, target: string, reason: string, actor: string, requestId: string,
                      now: int, stored: bool)
      returns (reply: Result<Record, Error>)
      requires Valid()
      modifies store, audits
      ensures Valid()
      ensures var req := Request(Records.Transition(id, expected, target, reason), actor, Operator, requestId);
              var told := ReplyTo(entity, old(store.View()), req, 0, now);
              reply == if told.Success? && !stored then Failure(AuditFailed) else told
      ensures var req := Request(Records.Transition(id, expected, target, reason), actor, Operator, requestId);
              && store.View() == TableAfter(entity, old(store.View()), req, 0, now)
              && audits.entries == LogAfter(entity, old(store.View()), old(audits.entries), req, 0, now, stored)
    {
      var req := Request(Records.Transition(id, expected, target, reason), actor, Operator, requestId);
      var read := store.Get(id);
      if read.None? {
        GuardRefuses(entity, old(store.View()), old(audits.entries), req, 0, now, stored, NotFound);
        return Failure(NotFound);
      }
      var current := read.value;
      var to := Named(Trim(target));
      if to.None? || !CanTransition(Transitions(entity), current.status, to.value) {
        TransitionIsRefused(entity, old(store.View()), old(audits.entries), req, current, now, stored);
        return Failure(InvalidTransition);
      }
      TransitionIsRecorded(entity, store.View(), req, current, to.value, now);
      reply := WriteTransition(current, id, expected, to.value, reason, req, now, stored);
    }

    /** A deletion whose audit entry is lost is reported as failed, though it stays. */
    method Delete(id: nat, actor: string, requestId: string, now: int, stored: bool)
      returns (done: Result<nat, Error>)
      requires Valid()
      modifies store, audits
      ensures Valid()
      ensures var req := Request(Records.Delete(id), actor, Admin, requestId);
              var x := Execute(entity, old(store.View()), req, 0, now);
              && done == (if x.Failure? then Failure(x.error) else if stored then Success(id) else Failure(AuditFailed))
              && store.View() == TableAfter(entity, old(store.View()), req, 0, now)
              && audits.entries == LogAfter(entity, old(store.View()), old(audits.entries), req, 0, now, stored)
    {
      var read := store.Get(id);
      if read.None? {
        return Failure(NotFound);
      }
      done := store.Delete(id);
      if done.Failure? {
        return;
      }
      var ok := audits.Audit(actor, requestId, "delete", TypeName(entity), id, Label(read.value.status), "deleted",
                             "soft deleted " + Title(entity), now, stored);
      done := if ok then Success(id) else Failure(AuditFailed);
    }
  }
}
