/**
 One entity's requests running concurrently. A request reads and checks its
 guards in one step (`Begin`), writes in a later one (`Commit`) and appends its
 audit entry in a third (`Audit`); any steps of other requests may fall in
 between, and a request may stop for good at any point (`Abort`). `Look` is a
 client reading a record. A run is a sequence of steps, so a statement about
 all step sequences is a statement about all interleavings.

 `log` and `sources` record what was committed and which commit each audit
 entry came from. The program keeps neither; no step's effect depends on them.
 */
module Protocol {
  import opened Outcomes
  import opened Status
  import opened Records
  import opened AuditEntries

  /** A successful write: what its request had read, the row it overwrote (`before`) and what it left. */
  datatype Entry = Entry(
    id: nat, request: Request, now: int,
    read: Option<Record>, before: Option<Record>, after: Record)

  datatype Pending =
    | Writing(request: Request, read: Option<Record>)
    | Auditing(commit: nat)

  datatype State = State(
    table: Table, pending: map<nat, Pending>, observed: set<(nat, nat)>,
    log: seq<Entry>, audits: seq<AuditEntry>, sources: seq<nat>)

  datatype Step =
    | Look(id: nat)
    | Begin(token: nat, request: Request)
    | Commit(token: nat, newId: nat, now: int)
    | Audit(token: nat)
    | Abort(token: nat)

  function Start(t: Table): State {
    State(t, map[], {}, [], [], [])
  }

  /** The id a request writes to. */
  function TargetOf(op: Operation, newId: nat): nat {
    if op.Create? then newId else op.id
  }

  /** The audit entry of a committed request; its states are those of the snapshot the request read. */
  function AuditOf(e: Entity, c: Entry): AuditEntry {
    var was := if c.read.Some? then Label(c.read.value.status) else "";
    var (action, before, after, detail) :=
      match c.request.op
      case Create(_, _) => ("create", "", Label(c.after.status), "created " + Title(e))
      case Edit(_, _, _) => ("update", was, was, "updated business fields")
      case Transition(_, _, _, reason) => ("transition", was, Label(c.after.status), reason)
      case Delete(_) => ("delete", was, "deleted", "soft deleted " + Title(e));
    NewAudit(c.request.actor, c.request.requestId, action, TypeName(e), c.id, before, after, detail)
  }

  function DoBegin(e: Entity, s: State, token: nat, request: Request): State {
    var read := ReadFor(s.table, request.op);
    if token in s.pending || Plan(e, request, read).Failure? then s
    else s.(pending := s.pending[token := Writing(request, read)])
  }

  /** The log entry of a commit that turned `t` into `after`. */
  function EntryFor(t: Table, after: Table, id: nat, request: Request, now: int, read: Option<Record>): Entry
    requires id in after.rows
  {
    Entry(id, request, now, read, if id in t.rows then Some(t.rows[id].rec) else None, after.rows[id].rec)
  }

  /** The database never hands out an id that is in use, nor zero. */
  predicate IsFreshFor(t: Table, op: Operation, newId: nat) {
    op.Create? ==> newId > 0 && newId !in t.rows
  }

  lemma AppliedRowExists(e: Entity, t: Table, req: Request, read: Option<Record>, newId: nat, now: int)
    requires Plan(e, req, read).Success?
    ensures var r := Apply(e, t, Plan(e, req, read).value, req, newId, now);
            r.Success? ==> TargetOf(req.op, newId) in r.value.rows
  {
  }

  function DoCommit(e: Entity, s: State, token: nat, newId: nat, now: int): State {
    if token !in s.pending || !s.pending[token].Writing? then s
    else
      var Writing(request, read) := s.pending[token];
      var plan := Plan(e, request, read);
      if plan.Failure? || !IsFreshFor(s.table, request.op, newId) then s
      else
        var r := Apply(e, s.table, plan.value, request, newId, now);
        if r.Failure? then s.(pending := s.pending - {token})
        else
          var id := TargetOf(request.op, newId);
          AppliedRowExists(e, s.table, request, read, newId, now);
          var entry := EntryFor(s.table, r.value, id, request, now, read);
          s.(table := r.value,
             pending := s.pending[token := Auditing(|s.log|)],
             observed := s.observed + {(id, entry.after.version)},
             log := s.log + [entry])
  }

  function DoAudit(e: Entity, s: State, token: nat): State {
    if token !in s.pending || !s.pending[token].Auditing? || s.pending[token].commit >= |s.log| then s
    else
      var commit := s.pending[token].commit;
      s.(pending := s.pending - {token},
         audits := s.audits + [AuditOf(e, s.log[commit])],
         sources := s.sources + [commit])
  }

  /** One step; a step that is not possible in `s` leaves it as it is. */
  function Next(e: Entity, s: State, step: Step): State {
    match step
    case Look(id) =>
      if IsLive(s.table, id) then s.(observed := s.observed + {(id, s.table.rows[id].rec.version)}) else s
    case Begin(token, request) => DoBegin(e, s, token, request)
    case Commit(token, newId, now) => DoCommit(e, s, token, newId, now)
    case Audit(token) => DoAudit(e, s, token)
    case Abort(token) => s.(pending := s.pending - {token})
  }

  ghost function Run(e: Entity, s: State, steps: seq<Step>): State {
    if steps == [] then s
    else Next(e, Run(e, s, steps[..|steps| - 1]), steps[|steps| - 1])
  }

  /**
   The discipline of a well-behaved client: the version it names was seen in an
   earlier read of that record. The program does not enforce it.
   */
  predicate IsDisciplined(s: State, step: Step) {
    step.Begin? && (step.request.op.Edit? || step.request.op.Transition?) ==>
      (step.request.op.id, step.request.op.expected) in s.observed
  }

  ghost predicate IsDisciplinedRun(e: Entity, s: State, steps: seq<Step>) {
    steps == [] ||
    (var front := steps[..|steps| - 1];
     IsDisciplinedRun(e, s, front) && IsDisciplined(Run(e, s, front), steps[|steps| - 1]))
  }

  /** The commits to one record, in commit order. */
  function HistoryOf(log: seq<Entry>, id: nat): seq<Entry> {
    if log == [] then []
    else
      var last := log[|log| - 1];
      HistoryOf(log[..|log| - 1], id) + (if last.id == id then [last] else [])
  }

  lemma HistoryOfAppend(log: seq<Entry>, entry: Entry, id: nat)
    ensures HistoryOf(log + [entry], id) == HistoryOf(log, id) + (if entry.id == id then [entry] else [])
  {
    assert (log + [entry])[..|log|] == log;
  }

  lemma {:induction false} HistoryOfMembers(log: seq<Entry>, id: nat, entry: Entry)
    ensures entry in HistoryOf(log, id) <==> entry in log && entry.id == id
  {
    if log != [] {
      var front, last := log[..|log| - 1], log[|log| - 1];
      HistoryOfMembers(front, id, entry);
      assert log == front + [last];
    }
  }
}
