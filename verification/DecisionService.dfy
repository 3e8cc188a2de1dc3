/**
 The service of priority decisions. Each method is proved to do, table and log
 alike, what its request does when run alone.
 */
module DecisionService {
  import opened Outcomes
  import opened Status
  import opened Text
  import opened Records
  import opened AuditEntries
  import AuditLog
  import DecisionRepository
  import opened Services

  class Service {
    const repository: DecisionRepository.Repository
    const audits: AuditLog.AuditStore

    ghost predicate Valid()
      reads repository, repository.store
    {
      repository.Valid()
    }

    constructor (repository: DecisionRepository.Repository, audits: AuditLog.AuditStore)
      requires repository.Valid()
      ensures Valid() && this.repository == repository && this.audits == audits
    {
      this.repository, this.audits := repository, audits;
    }

    /** The write of a creation, whatever the table has become since its guards passed. */
    method SaveNew(item: Record, reason: string, req: Request, now: int) returns (r: Result<nat, Error>)
      requires Valid() && item.version == 1
      modifies repository, repository.store
      ensures Valid()
      ensures var t, newId := old(repository.View()), old(repository.store.nextId);
              var x := Apply(Priority, t, Insert(item, reason), req, newId, now);
              if r.Success? then r.value == old(repository.store.nextId) && x == Success(repository.View())
              else x == Failure(r.error) && repository.View() == old(repository.View())
    {
      var revision := NewRevision(0, item, reason, req);
      r := repository.CreateWithRevision(item, revision, now);
    }

    method Create(code: string, input: Fields, actor: string, requestId: string, now: int, stored: bool)
      returns (reply: Result<Record, Error>)
      requires Valid()
      modifies repository, repository.store, audits
      ensures Valid()
      ensures var req := Request(Records.Create(code, input), actor, Operator, requestId);
              var id := old(repository.store.nextId);
              && reply == ReplyTo(Priority, old(repository.View()), req, id, now)
              && repository.View() == TableAfter(Priority, old(repository.View()), req, id, now)
              && audits.entries == LogAfter(Priority, old(repository.View()), old(audits.entries), req, id, now, stored)
    {
      if !HasBusinessFields(Priority, code, input) {
        return Failure(InvalidInput);
      }
      var req := Request(Records.Create(code, input), actor, Operator, requestId);
      var item := Record(0, ToUpper(Trim(code)), Draft, 1, Clean(input), actor);
      PlannedIsApplied(Priority, repository.View(), req, Insert(item, "decision draft created"),
                       repository.store.nextId, now);
      var r := SaveNew(item, "decision draft created", req, now);
      if r.Failure? {
        return Failure(r.error);
      }
      DecisionCreateEntry(old(repository.View()), req, r.value, now);
      item := item.(id := r.value);
      var _ := Log(item.id, "create", "", Label(item.status), "created " + Title(Priority), req, now, stored,
                   old(repository.View()), r.value);
      var created, _ := repository.Get(item.id);
      reply := if created.Some? then Success(created.value) else Failure(NotFound);
    }

    /** The write of an edit or finalization, whatever the table has become since its guards passed. */
    method Save(id: nat, expected: nat, item: Record, reason: string, req: Request, now: int)
      returns (r: Result<nat, Error>)
      requires Valid()
      modifies repository, repository.store
      ensures Valid()
      ensures var x := Apply(Priority, old(repository.View()), Replace(id, expected, item, reason), req, 0, now);
              if r.Success? then x == Success(repository.View())
              else x == Failure(r.error) && repository.View() == old(repository.View())
    {
      var revision := NewRevision(0, item, reason, req);
      r := repository.UpdateWithRevision(id, expected, item, revision, now);
    }

    /** The same write when nobody has written since the read. */
    method SaveUndisturbed(id: nat, expected: nat, item: Record, reason: string, req: Request, now: int)
      returns (r: Result<nat, Error>)
      requires Valid()
      requires var t := repository.View();
               Execute(Priority, t, req, 0, now) == Apply(Priority, t, Replace(id, expected, item, reason), req, 0, now)
      modifies repository, repository.store
      ensures Valid()
      ensures var x := Execute(Priority, old(repository.View()), req, 0, now);
              if r.Success? then x == Success(repository.View())
              else x == Failure(r.error) && repository.View() == old(repository.View())
    {
      r := Save(id, expected, item, reason, req, now);
    }

    /** Appends the audit entry of a request that has just been written. */
    method Log(id: nat, action: string, before: string, after: string, detail: string,
               req: Request, now: int, stored: bool, ghost t: Table, ghost newId: nat)
      returns (ok: bool)
      requires Valid() && action != ""
      requires Execute(Priority, t, req, newId, now).Success?
      requires EntryAfter(Priority, t, req, newId, now)
            == NewAudit(req.actor, req.requestId, action, TypeName(Priority), id, before, after, detail)
      modifies audits
      ensures ok == stored
      ensures audits.entries == LogAfter(Priority, t, old(audits.entries), req, newId, now, stored)
    {
      ok := audits.Audit(req.actor, req.requestId, action, TypeName(Priority), id, before, after, detail, now, stored);
    }

    /** What is left of an edit once its guards have passed. */
    method WriteEdit(read: Record, id: nat, expected: nat, input: Fields, req: Request, now: int, stored: bool)
      returns (reply: Result<Record, Error>)
      requires Valid() && req.op == Edit(id, expected, input) && Find(repository.View(), id) == Some(read)
      requires read.status == Draft && (req.actor == read.preparedBy || req.role == Admin)
      requires HasBusinessFields(Priority, read.code, input)
      modifies repository, repository.store, audits
      ensures Valid()
      ensures reply == ReplyTo(Priority, old(repository.View()), req, 0, now)
      ensures repository.View() == TableAfter(Priority, old(repository.View()), req, 0, now)
      ensures audits.entries == LogAfter(Priority, old(repository.View()), old(audits.entries), req, 0, now, stored)
    {
      var current := OverwriteFields(read, expected, input);
      EditIsApplied(Priority, repository.View(), req, read, now);
      var r := SaveUndisturbed(id, expected, current, "draft business fields updated", req, now);
      if r.Failure? {
        Refused(Priority, old(repository.View()), old(audits.entries), req, 0, now, stored, r.error);
        return Failure(r.error);
      }
      Accepted(Priority, old(repository.View()), repository.View(), req, 0, now);
      EditEntry(Priority, old(repository.View()), req, now);
      var _ := Log(id, "update", Label(current.status), Label(current.status), "updated business fields",
                   req, now, stored, old(repository.View()), 0);
      var updated, _ := repository.Get(id);
      reply := if updated.Some? then Success(updated.value) else Failure(NotFound);
    }

    method Update(id: nat, expected: nat, input: Fields, actor: string, role: Role, requestId: string,
                  now: int, stored: bool)
      returns (reply: Result<Record, Error>)
      requires Valid()
      modifies repository, repository.store, audits
      ensures Valid()
      ensures var req := Request(Edit(id, expected, input), actor, role, requestId);
              && reply == ReplyTo(Priority, old(repository.View()), req, 0, now)
              && repository.View() == TableAfter(Priority, old(repository.View()), req, 0, now)
              && audits.entries == LogAfter(Priority, old(repository.View()), old(audits.entries), req, 0, now, stored)
    {
      var req := Request(Edit(id, expected, input), actor, role, requestId);
      var read, _ := repository.Get(id);
      if read.None? {
        GuardRefuses(Priority, old(repository.View()), old(audits.entries), req, 0, now, stored, NotFound);
        return Failure(NotFound);
      }
      var current := read.value;
      if current.status != Draft {
        GuardRefuses(Priority, old(repository.View()), old(audits.entries), req, 0, now, stored, DecisionLocked);
        return Failure(DecisionLocked);
      }
      if actor != current.preparedBy && role != Admin {
        GuardRefuses(Priority, old(repository.View()), old(audits.entries), req, 0, now, stored, NotDecisionOwner);
        return Failure(NotDecisionOwner);
      }
      if !HasBusinessFields(Priority, current.code, input) {
        GuardRefuses(Priority, old(repository.View()), old(audits.entries), req, 0, now, stored, InvalidInput);
        return Failure(InvalidInput);
      }
      reply := WriteEdit(current, id, expected, input, req, now, stored);
    }

    /** What is left of a status change once its guards have passed. */
    method WriteTransition(read: Record, id: nat, expected: nat, to: Status, reason: string, req: Request,
                           now: int, stored: bool)
      returns (reply: Result<Record, Error>)
      requires Valid() && Find(repository.View(), id) == Some(read)
      requires req.op.Transition? && req.op.id == id && req.op.expected == expected && req.op.reason == reason
      requires var t, item := repository.View(), read.(status := to, version := expected + 1);
               Execute(Priority, t, req, 0, now)
               == Apply(Priority, t, Replace(id, expected, item, Trim(reason)), req, 0, now)
      requires var t := repository.View();
               Execute(Priority, t, req, 0, now).Success? ==>
                 EntryAfter(Priority, t, req, 0, now)
                 == NewAudit(req.actor, req.requestId, "transition", TypeName(Priority), id,
                             Label(read.status), Label(to), reason)
      modifies repository, repository.store, audits
      ensures Valid()
      ensures var told := ReplyTo(Priority, old(repository.View()), req, 0, now);
              reply == if told.Success? && !stored then Failure(AuditFailed) else told
      ensures repository.View() == TableAfter(Priority, old(repository.View()), req, 0, now)
      ensures audits.entries == LogAfter(Priority, old(repository.View()), old(audits.entries), req, 0, now, stored)
    {
      var current := read.(status := to);
      current := current.(version := expected + 1);
      var r := SaveUndisturbed(id, expected, current, Trim(reason), req, now);
      if r.Failure? {
        Refused(Priority, old(repository.View()), old(audits.entries), req, 0, now, stored, r.error);
        return Failure(r.error);
      }
      Accepted(Priority, old(repository.View()), repository.View(), req, 0, now);
      var ok := Log(id, "transition", Label(read.status), Label(to), reason,
                    req, now, stored, old(repository.View()), 0);
      if !ok {
        return Failure(AuditFailed);
      }
      var updated, _ := repository.Get(id);
      reply := if updated.Some? then Success(updated.value) else Failure(NotFound);
    }

    /** A finalization whose audit entry is lost is reported as failed, though it stays. */
    method Transition(id: nat, expected: nat, target: string, reason: string, actor: string, role: Role,
                      requestId: string, now: int, stored: bool)
      returns (reply: Result<Record, Error>)
      requires Valid()
      modifies repository, repository.store, audits
      ensures Valid()
      ensures var req := Request(Records.Transition(id, expected, target, reason), actor, role, requestId);
              var told := ReplyTo(Priority, old(repository.View()), req, 0, now);
              && reply == (if told.Success? && !stored then Failure(AuditFailed) else told)
              && repository.View() == TableAfter(Priority, old(repository.View()), req, 0, now)
              && audits.entries == LogAfter(Priority, old(repository.View()), old(audits.entries), req, 0, now, stored)
    {
      var req := Request(Records.Transition(id, expected, target, reason), actor, role, requestId);
      var read, _ := repository.Get(id);
      if read.None? {
        GuardRefuses(Priority, old(repository.View()), old(audits.entries), req, 0, now, stored, NotFound);
        return Failure(NotFound);
      }
      var current := read.value;
      if role != Reviewer && role != Admin {
        GuardRefuses(Priority, old(repository.View()), old(audits.entries), req, 0, now, stored, ReviewRole);
        return Failure(ReviewRole);
      }
      if actor == current.preparedBy {
        GuardRefuses(Priority, old(repository.View()), old(audits.entries), req, 0, now, stored, SeparationOfDuty);
        return Failure(SeparationOfDuty);
      }
      var to := Named(Trim(target));
      if to.None? || !CanTransition(PRIORITY_TRANSITIONS, current.status, to.value) {
        GuardRefuses(Priority, old(repository.View()), old(audits.entries), req, 0, now, stored, InvalidTransition);
        return Failure(InvalidTransition);
      }
      TransitionIsRecorded(Priority, repository.View(), req, current, to.value, now);
      reply := WriteTransition(current, id, expected, to.value, reason, req, now, stored);
    }

    /** A deletion whose audit entry is lost is reported as failed, though it stays. */
    method Delete(id: nat, actor: string, requestId: string, now: int, stored: bool)
      returns (done: Result<nat, Error>)
      requires Valid()
      modifies repository, repository.store, audits
      ensures Valid()
      ensures var req := Request(Records.Delete(id), actor, Admin, requestId);
              var x := Execute(Priority, old(repository.View()), req, 0, now);
              && done == (if x.Failure? then Failure(x.error) else if stored then Success(id) else Failure(AuditFailed))
              && repository.View() == TableAfter(Priority, old(repository.View()), req, 0, now)
              && audits.entries == LogAfter(Priority, old(repository.View()), old(audits.entries), req, 0, now, stored)
    {
      var read, _ := repository.Get(id);
      if read.None? {
        return Failure(NotFound);
      }
      if read.value.status != Draft {
        return Failure(DecisionLocked);
      }
      done := repository.Delete(id);
      if done.Failure? {
        return;
      }
      var ok := audits.Audit(actor, requestId, "delete", TypeName(Priority), id, Label(read.value.status), "deleted",
                             "soft deleted " + Title(Priority), now, stored);
      done := if ok then Success(id) else Failure(AuditFailed);
    }
  }
}
