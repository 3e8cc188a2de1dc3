/** What a service call leaves behind, in terms of one request run alone. */
module Services {
  import opened Outcomes
  import opened Status
  import opened Text
  import opened Records
  import opened AuditEntries
  import opened Protocol
  import AuditLog

  /** The table after a request run alone. */
  function TableAfter(e: Entity, t: Table, req: Request, newId: nat, now: int): Table {
    var r := Execute(e, t, req, newId, now);
    if r.Success? then r.value else t
  }

  /** The audit entry of a successful request run alone. */
  function EntryAfter(e: Entity, t: Table, req: Request, newId: nat, now: int): AuditEntry
    requires Execute(e, t, req, newId, now).Success?
  {
    AppliedRowExists(e, t, req, ReadFor(t, req.op), newId, now);
    var id := TargetOf(req.op, newId);
    AuditOf(e, EntryFor(t, TableAfter(e, t, req, newId, now), id, req, now, ReadFor(t, req.op)))
  }

  /** The audit log after a request run alone; `stored` is whether the database takes the entry. */
  function LogAfter(e: Entity, t: Table, log: seq<AuditLog.Timed>, req: Request, newId: nat, now: int, stored: bool)
    : seq<AuditLog.Timed>
  {
    if Execute(e, t, req, newId, now).Success? && stored
    then log + [AuditLog.Timed(EntryAfter(e, t, req, newId, now), now)]
    else log
  }

  /** What the caller is told: the error that stopped the request, or the row it left. */
  function ReplyTo(e: Entity, t: Table, req: Request, newId: nat, now: int): Result<Record, Error> {
    var x := Execute(e, t, req, newId, now);
    if x.Failure? then Failure(x.error)
    else
      AppliedRowExists(e, t, req, ReadFor(t, req.op), newId, now);
      Success(x.value.rows[TargetOf(req.op, newId)].rec)
  }

  /** A refused request leaves table and log alone and reports why. */
  lemma Refused(e: Entity, t: Table, log: seq<AuditLog.Timed>, req: Request, newId: nat, now: int, stored: bool,
                error: Error)
    requires Execute(e, t, req, newId, now) == Failure(error)
    ensures ReplyTo(e, t, req, newId, now) == Failure(error)
    ensures TableAfter(e, t, req, newId, now) == t
    ensures LogAfter(e, t, log, req, newId, now, stored) == log
  {
  }

  lemma GuardRefuses(e: Entity, t: Table, log: seq<AuditLog.Timed>, req: Request, newId: nat, now: int, stored: bool,
                     error: Error)
    requires Plan(e, req, ReadFor(t, req.op)) == Failure(error)
    ensures Execute(e, t, req, newId, now) == Failure(error)
    ensures ReplyTo(e, t, req, newId, now) == Failure(error)
    ensures TableAfter(e, t, req, newId, now) == t
    ensures LogAfter(e, t, log, req, newId, now, stored) == log
  {
  }

  /** A status change that its graph does not allow is refused. */
  lemma TransitionIsRefused(e: Entity, t: Table, log: seq<AuditLog.Timed>, req: Request, read: Record, now: int,
                            stored: bool)
    requires req.op.Transition? && !e.Priority? && Find(t, req.op.id) == Some(read)
    requires var to := Named(Trim(req.op.target)); to.None? || !CanTransition(Transitions(e), read.status, to.value)
    ensures ReplyTo(e, t, req, 0, now) == Failure(InvalidTransition)
    ensures TableAfter(e, t, req, 0, now) == t
    ensures LogAfter(e, t, log, req, 0, now, stored) == log
  {
    GuardRefuses(e, t, log, req, 0, now, stored, InvalidTransition);
  }

  /** An accepted request leaves the table it was applied to and reports the row it wrote. */
  lemma Accepted(e: Entity, t: Table, t': Table, req: Request, newId: nat, now: int)
    requires Execute(e, t, req, newId, now) == Success(t')
    ensures TableAfter(e, t, req, newId, now) == t'
    ensures TargetOf(req.op, newId) in t'.rows
    ensures ReplyTo(e, t, req, newId, now) == Success(t'.rows[TargetOf(req.op, newId)].rec)
    ensures !req.op.Delete? ==> !t'.rows[TargetOf(req.op, newId)].deleted
  {
    if !req.op.Delete? {
      WrittenIsLive(e, t, t', Plan(e, req, ReadFor(t, req.op)).value, req, newId, now);
    }
  }

  lemma WrittenIsLive(e: Entity, t: Table, t': Table, w: Write, req: Request, newId: nat, now: int)
    requires !w.Remove? && Apply(e, t, w, req, newId, now) == Success(t')
    ensures var id := if w.Insert? then newId else w.id;
            id in t'.rows && !t'.rows[id].deleted
  {
  }

  /** An edit that passes the guards writes the cleaned fields as the version after the one it names. */
  lemma EditIsPlanned(e: Entity, req: Request, read: Record)
    requires req.op.Edit? && HasBusinessFields(e, read.code, req.op.input)
    requires e.Priority? ==> read.status == Draft && (req.actor == read.preparedBy || req.role == Admin)
    ensures Plan(e, req, Some(read)) == Success(Replace(
              req.op.id, req.op.expected, read.(fields := Clean(req.op.input), version := req.op.expected + 1),
              "draft business fields updated"))
  {
  }

  /** A status change that passes the guards writes the target as the version after the one it names. */
  lemma TransitionIsPlanned(e: Entity, req: Request, read: Record, to: Status)
    requires req.op.Transition? && Named(Trim(req.op.target)) == Some(to)
    requires CanTransition(Transitions(e), read.status, to)
    requires e.Priority? ==> req.actor != read.preparedBy && (req.role == Reviewer || req.role == Admin)
    ensures Plan(e, req, Some(read)) == Success(Replace(
              req.op.id, req.op.expected, read.(status := to, version := req.op.expected + 1), Trim(req.op.reason)))
  {
  }

  /** A request whose guards have passed is its write. */
  lemma PlannedIsApplied(e: Entity, t: Table, req: Request, w: Write, newId: nat, now: int)
    requires Plan(e, req, ReadFor(t, req.op)) == Success(w)
    ensures Execute(e, t, req, newId, now) == Apply(e, t, w, req, newId, now)
  {
  }

  lemma EditIsApplied(e: Entity, t: Table, req: Request, read: Record, now: int)
    requires req.op.Edit? && Find(t, req.op.id) == Some(read) && HasBusinessFields(e, read.code, req.op.input)
    requires e.Priority? ==> read.status == Draft && (req.actor == read.preparedBy || req.role == Admin)
    ensures var item := read.(fields := Clean(req.op.input), version := req.op.expected + 1);
            Execute(e, t, req, 0, now)
            == Apply(e, t, Replace(req.op.id, req.op.expected, item, "draft business fields updated"), req, 0, now)
  {
    EditIsPlanned(e, req, read);
  }

  lemma TransitionIsApplied(e: Entity, t: Table, req: Request, read: Record, to: Status, now: int)
    requires req.op.Transition? && Find(t, req.op.id) == Some(read)
    requires Named(Trim(req.op.target)) == Some(to) && CanTransition(Transitions(e), read.status, to)
    requires e.Priority? ==> req.actor != read.preparedBy && (req.role == Reviewer || req.role == Admin)
    ensures var item := read.(status := to, version := req.op.expected + 1);
            Execute(e, t, req, 0, now)
            == Apply(e, t, Replace(req.op.id, req.op.expected, item, Trim(req.op.reason)), req, 0, now)
  {
    TransitionIsPlanned(e, req, read, to);
  }

  lemma DecisionCreateEntry(t: Table, req: Request, newId: nat, now: int)
    requires req.op.Create? && Execute(Priority, t, req, newId, now).Success?
    ensures EntryAfter(Priority, t, req, newId, now)
         == NewAudit(req.actor, req.requestId, "create", TypeName(Priority), newId,
                     "", Label(Draft), "created " + Title(Priority))
  {
  }

  /** The entry of an edit names the status the row has and keeps. */
  lemma EditEntry(e: Entity, t: Table, req: Request, now: int)
    requires req.op.Edit? && Execute(e, t, req, 0, now).Success?
    ensures IsLive(t, req.op.id)
    ensures var status := Label(t.rows[req.op.id].rec.status);
            EntryAfter(e, t, req, 0, now)
            == NewAudit(req.actor, req.requestId, "update", TypeName(e), req.op.id,
                        status, status, "updated business fields")
  {
  }

  /** The entry of a status change names the status left and the one reached. */
  lemma TransitionEntry(e: Entity, t: Table, req: Request, to: Status, now: int)
    requires req.op.Transition? && Execute(e, t, req, 0, now).Success? && Named(Trim(req.op.target)) == Some(to)
    ensures IsLive(t, req.op.id)
    ensures EntryAfter(e, t, req, 0, now)
         == NewAudit(req.actor, req.requestId, "transition", TypeName(e), req.op.id,
                     Label(t.rows[req.op.id].rec.status), Label(to), req.op.reason)
  {
  }

  /** What a status change whose guards have passed writes, to the table and to the audit log. */
  lemma TransitionIsRecorded(e: Entity, t: Table, req: Request, read: Record, to: Status, now: int)
    requires req.op.Transition? && Find(t, req.op.id) == Some(read)
    requires Named(Trim(req.op.target)) == Some(to) && CanTransition(Transitions(e), read.status, to)
    requires e.Priority? ==> req.actor != read.preparedBy && (req.role == Reviewer || req.role == Admin)
    ensures var item := read.(status := to, version := req.op.expected + 1);
            Execute(e, t, req, 0, now)
            == Apply(e, t, Replace(req.op.id, req.op.expected, item, Trim(req.op.reason)), req, 0, now)
    ensures Execute(e, t, req, 0, now).Success? ==>
              EntryAfter(e, t, req, 0, now)
              == NewAudit(req.actor, req.requestId, "transition", TypeName(e), req.op.id,
                          Label(read.status), Label(to), req.op.reason)
  {
    TransitionIsApplied(e, t, req, read, to, now);
    if Execute(e, t, req, 0, now).Success? {
      TransitionEntry(e, t, req, to, now);
    }
  }

  /** Overwrites the business fields of a record one by one, and its version. */
  method OverwriteFields(read: Record, expected: nat, input: Fields) returns (current: Record)
    ensures current == read.(fields := Clean(input), version := expected + 1)
  {
    current := read;
    current := current.(fields := current.fields.(name := Trim(input.name)));
    current := current.(fields := current.fields.(description := Trim(input.description)));
    current := current.(fields := current.fields.(facility := Trim(input.facility)));
    current := current.(fields := current.fields.(owner := Trim(input.owner)));
    current := current.(fields := current.fields.(category := Trim(input.category)));
    current := current.(fields := current.fields.(riskLevel := input.riskLevel));
    current := current.(fields := current.fields.(metricValue := input.metricValue));
    current := current.(fields := current.fields.(metricUnit := Trim(input.metricUnit)));
    current := current.(fields := current.fields.(effectiveAt := input.effectiveAt));
    current := current.(fields := current.fields.(evidence := Trim(input.evidence)));
    current := current.(fields := current.fields.(relatedCode := ToUpper(Trim(input.relatedCode))));
    current := current.(version := expected + 1);
  }
}
